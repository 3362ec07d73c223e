/** Remote config writes: stage beside the target, dry-run, back up, rename. Every file operation may fail, and the
    process may stop after any of them. */
module ConfigManager {
  import opened Text
  import opened ConfigSources

  // ----- the disk -----

  /** A file system that remembers each state it has been in, so that a stop can be placed at any of them, and counts
      the operations that failed or were cut short. */
  class Disk {
    var files: Files
    ghost var past: seq<Files>
    ghost var faults: nat

    ghost predicate Valid()
      reads this
    {
      past != [] && past[|past| - 1] == files
    }

    constructor (files: Files)
      ensures Valid() && this.files == files && past == [files]
    {
      this.files := files;
      past, faults := [files], 0;
    }

    /** Creates an empty file under a temporary name that was not taken. */
    method CreateTemp() returns (name: Option<string>)
      requires Valid()
      modifies this
      ensures Valid()
      ensures name.None? ==> files == old(files) && past == old(past) && faults > old(faults)
      ensures name.Some? ==>
                && IsTemp(name.value) && name.value !in old(files) && faults == old(faults)
                && files == old(files)[name.value := []] && past == old(past) + [files]
    {
      var candidate: string := *;
      if candidate in files || !IsTemp(candidate) {
        faults := faults + 1;
        return None;
      }
      files := files[candidate := []];
      past := past + [files];
      return Some(candidate);
    }

    /** Writes a file from its start; a failed write may leave any prefix behind, and so may a stop in between. */
    method Write(name: string, content: Content) returns (ok: bool)
      requires Valid()
      modifies this
      ensures Valid() && old(past) <= past
      ensures ok ==> files == old(files)[name := content] && faults == old(faults)
      ensures !ok ==> faults > old(faults)
      ensures forall i | |old(past)| <= i < |past| :: PartlyWritten(old(files), past[i], name, content)
      ensures PartlyWritten(old(files), files, name, content)
    {
      assert content == content[..|content|];
      var started: bool := *;
      if !started {
        faults := faults + 1;
        return false;
      }
      var written: int := *;
      if 0 <= written < |content| {
        files := files[name := content[..written]];
        past := past + [files];
        ok := *;
        if !ok {
          faults := faults + 1;
          return;
        }
      }
      files := files[name := content];
      past := past + [files];
      return true;
    }

    /** Flushing, setting permissions and closing. */
    method Finish() returns (ok: bool)
      modifies this`faults
      ensures if ok then faults == old(faults) else faults > old(faults)
    {
      ok := *;
      if !ok {
        faults := faults + 1;
      }
    }

    method Remove(name: string)
      requires Valid()
      modifies this
      ensures Valid() && old(past) <= past && faults >= old(faults)
      ensures faults == old(faults) ==> files == old(files) - {name}
      ensures forall i | |old(past)| <= i < |past| :: EqualExcept(old(files), past[i], {name})
      ensures EqualExcept(old(files), files, {name})
    {
      var ok: bool := *;
      if ok {
        files := files - {name};
        past := past + [files];
      } else {
        faults := faults + 1;
      }
    }

    method ReadFile(name: string) returns (content: Option<Content>)
      modifies this`faults
      ensures content.Some? ==> name in files && content.value == files[name] && faults == old(faults)
      ensures content.None? ==> faults >= old(faults) && (name in files ==> faults > old(faults))
    {
      var ok: bool := *;
      if ok && name in files {
        return Some(files[name]);
      }
      faults := if name in files then faults + 1 else faults;
      return None;
    }

    /** The rename happens in one step or not at all. */
    method Rename(from: string, to: string) returns (ok: bool)
      requires Valid()
      modifies this
      ensures Valid()
      ensures !ok ==> files == old(files) && past == old(past) && faults > old(faults)
      ensures ok ==> faults == old(faults)
      ensures ok ==> from in old(files) && files == Renamed(old(files), from, to) && past == old(past) + [files]
    {
      ok := *;
      if from !in files {
        ok := false;
      }
      if ok {
        files := Renamed(files, from, to);
        past := past + [files];
      } else {
        faults := faults + 1;
      }
    }
  }

  predicate IsTemp(name: string) {
    HasSuffix(name, ".tmp")
  }

  function Backup(path: string): string {
    path + ".bak"
  }

  function Renamed(files: Files, from: string, to: string): Files
    requires from in files
  {
    (files - {from})[to := files[from]]
  }

  ghost predicate EqualExcept(a: Files, b: Files, touched: set<string>) {
    forall p | p !in touched :: At(a, p) == At(b, p)
  }

  /** A write of `content` that went all the way, stopped after some prefix, or never began. */
  ghost predicate PartlyWritten(a: Files, b: Files, name: string, content: Content) {
    b == a || exists n | 0 <= n <= |content| :: b == a[name := content[..n]]
  }

  /** A temporary name that is free. */
  predicate Spare(files: Files, p: string) {
    IsTemp(p) && p !in files
  }

  ghost predicate OnlyTemps(a: Files, b: Files) {
    forall p | !Spare(a, p) :: At(a, p) == At(b, p)
  }

  /** The candidate is at its target; nothing else but the backup and the temporary name has changed. */
  ghost predicate Replaced(a: Files, b: Files, path: string, candidate: string)
    requires candidate in a
  {
    At(b, path) == Some(a[candidate]) && EqualExcept(a, b, {path, candidate, Backup(path)})
  }

  /** The disk after a commit in which nothing failed. */
  function Committed(files: Files, path: string, content: Content): Files {
    (if path in files then files[Backup(path) := files[path]] else files)[path := content]
  }

  // ----- the protocol -----

  /** What the collector says of a document, and of a resolved list of sources. */
  datatype Collector = Collector(isYaml: Content -> bool, accepts: seq<Source> -> bool)

  datatype Refusal =
    | WriteDisabled | NoFile | UnknownPath | EmptyConfig | TooLarge | NotYaml
    | CannotStage | ValidationUnavailable | Invalid | CannotReplace

  datatype Outcome = Applied(reload: bool) | Refused(why: Refusal)

  const MAX_CONFIG_FILE_BYTES := 0x10_0000

  /** The files one Apply touches besides its target hold no configuration: no source is the backup of a source, and no
      missing source carries a temporary name. */
  ghost predicate Unclashing(uris: seq<string>, files: Files) {
    && (forall uri | uri in uris && UriPath(uri).Some? :: !IsKnownPath(uris, Backup(UriPath(uri).value)))
    && (forall uri | uri in uris && UriPath(uri).Some? :: !Spare(files, UriPath(uri).value))
  }

  /** The candidate passed the dry run over the disk `before`. */
  predicate Validated(c: Collector, uris: seq<string>, before: Files, path: string, content: Content) {
    c.accepts(View(uris, before[path := content]))
  }

  /** What one Apply may leave behind at any moment: the sources as they were, or as they were with the validated
      candidate in place. */
  ghost predicate MayFollow(c: Collector, uris: seq<string>, before: Files, after: Files, path: string,
                            content: Content)
  {
    || Same(uris, after, before)
    || (Validated(c, uris, before, path, content) && IsKnownPath(uris, path)
        && Same(uris, after, before[path := content]))
  }

  /** Every state from the `from`-th on is one that Apply may leave behind. */
  ghost predicate AllFollow(c: Collector, uris: seq<string>, before: Files, states: seq<Files>, from: nat,
                            path: string, content: Content)
  {
    forall i | from <= i < |states| :: MayFollow(c, uris, before, states[i], path, content)
  }

  lemma {:induction false} BackupIsNoTemp(path: string)
    ensures !IsTemp(Backup(path)) && Backup(path) != path
  {
    assert Backup(path)[|Backup(path)| - 4..] == ".bak";
    assert Backup(path)[|Backup(path)| - 4..][1] == 'b';
  }

  /** Staging leaves the sources alone. */
  lemma {:induction false} TempsAreNoSources(uris: seq<string>, before: Files, after: Files)
    requires Unclashing(uris, before) && OnlyTemps(before, after)
    ensures Same(uris, after, before)
  {
  }

  /** So does backing up, and clearing the staged file. */
  lemma {:induction false} BackupIsNoSource(uris: seq<string>, before: Files, after: Files, path: string, name: string)
    requires Unclashing(uris, before) && IsKnownPath(uris, path) && Spare(before, name)
    requires EqualExcept(before, after, {Backup(path), name})
    ensures Same(uris, after, before)
  {
  }

  /** After the rename the sources are those with the candidate in place. */
  lemma {:induction false} ReplacedIsCommitted(uris: seq<string>, before: Files, after: Files, path: string,
                                               candidate: string, content: Content)
    requires Unclashing(uris, before) && IsKnownPath(uris, path) && Spare(before, candidate)
    requires Replaced(before[candidate := content], after, path, candidate)
    ensures Same(uris, after, before[path := content])
  {
    forall p | IsKnownPath(uris, p) ensures At(after, p) == At(before[path := content], p) {
      assert p != candidate && p != Backup(path);
    }
  }

  /** The dry run over the staged disk speaks about the disk before staging. */
  lemma {:induction false} StagedVerdict(c: Collector, uris: seq<string>, before: Files, path: string,
                                         candidate: string, content: Content)
    requires Unclashing(uris, before) && Spare(before, candidate)
    ensures c.accepts(View(uris, before[candidate := content][path := content])) <==>
              Validated(c, uris, before, path, content)
  {
    var staged := before[candidate := content];
    forall p | IsKnownPath(uris, p) ensures At(staged[path := content], p) == At(before[path := content], p) {
      assert p != candidate;
    }
    SameView(uris, staged[path := content], before[path := content]);
  }

  /** No state that Apply leaves behind makes sources clash. */
  lemma {:induction false} UnclashingKept(c: Collector, uris: seq<string>, before: Files, after: Files, path: string,
                                          content: Content)
    requires Unclashing(uris, before) && MayFollow(c, uris, before, after, path, content)
    ensures Unclashing(uris, after)
  {
    forall p | IsKnownPath(uris, p) ensures !Spare(after, p) {
      assert At(after, p) == At(before, p) || At(after, p) == At(before[path := content], p);
    }
  }

  // ----- what a refused write leaves behind -----

  /** Nothing has changed but free temporary names and the backup of `path`. */
  ghost predicate BackupAtMost(before: Files, after: Files, path: string) {
    forall p | !Spare(before, p) && p != Backup(path) :: At(after, p) == At(before, p)
  }

  /** The disks a refused write can leave: only a final rename that fails leaves more than staged files, namely a
      backup that was written in whole or in part. */
  ghost predicate RefusalLeaves(before: Files, after: Files, path: string, why: Refusal) {
    && BackupAtMost(before, after, path)
    && (|| At(after, Backup(path)) == At(before, Backup(path))
        || (why == CannotReplace && path in before
            && exists n | 0 <= n <= |before[path]| :: At(after, Backup(path)) == Some(before[path][..n])))
  }

  /** Some file that is no staged one differs. */
  ghost predicate Changed(before: Files, after: Files) {
    exists p | !Spare(before, p) :: At(after, p) != At(before, p)
  }

  /** A refused write can change a file exactly when the target exists and its backup is not already what every attempt
      to back it up writes: the empty file, for an empty target. */
  lemma {:induction false} RefusalCanChangeIff(before: Files, path: string)
    ensures (exists after, why :: RefusalLeaves(before, after, path, why) && Changed(before, after)) <==>
              path in before && (before[path] != [] || At(before, Backup(path)) != Some([]))
  {
    if path in before && (before[path] != [] || At(before, Backup(path)) != Some([])) {
      var n := if At(before, Backup(path)) == Some([]) then |before[path]| else 0;
      var after := BackedUp(before, path, n);
      assert RefusalLeaves(before, after, path, CannotReplace) && Changed(before, after);
    }
    forall after, why | RefusalLeaves(before, after, path, why) && Changed(before, after)
      ensures path in before && (before[path] != [] || At(before, Backup(path)) != Some([]))
    {
      var p :| !Spare(before, p) && At(after, p) != At(before, p);
      assert p == Backup(path);
    }
  }

  /** The first `n` bytes of the target have reached its backup, and the rename has failed. */
  lemma {:induction false} BackedUp(before: Files, path: string, n: nat) returns (after: Files)
    requires path in before && n <= |before[path]| && At(before, Backup(path)) != Some(before[path][..n])
    ensures after == before[Backup(path) := before[path][..n]]
    ensures RefusalLeaves(before, after, path, CannotReplace) && Changed(before, after)
  {
    BackupIsNoTemp(path);
    after := before[Backup(path) := before[path][..n]];
    assert At(after, Backup(path)) == Some(before[path][..n]);
    assert !Spare(before, Backup(path));
  }

  /** So an error does not mean that nothing was written: the last good backup is gone, and half of the present content
      is in its place. */
  lemma {:induction false} RefusalLosesBackup() returns (before: Files, after: Files)
    ensures before == map["c" := [3, 4], "c.bak" := [1, 2]] && after == map["c" := [3, 4], "c.bak" := [3]]
    ensures RefusalLeaves(before, after, "c", CannotReplace) && Changed(before, after)
  {
    before := map["c" := [3, 4], "c.bak" := [1, 2]];
    assert Backup("c") == "c.bak" && before["c"][..1] == [3];
    after := BackedUp(before, "c", 1);
  }

  /** The file that UpdateConfig means when it names none. */
  function Primary(configured: string, uris: seq<string>): string {
    if configured != "" then configured
    else if uris == [] then ""
    else if UriPath(uris[0]).Some? then UriPath(uris[0]).value
    else Primary("", uris[1..])
  }

  /** Without an override the primary file is one of the sources, and is missing only when no source is a file. */
  lemma {:induction false} PrimaryIsKnown(uris: seq<string>)
    ensures Primary("", uris) != "" ==> IsKnownPath(uris, Primary("", uris))
    ensures Primary("", uris) == "" ==> forall uri | uri in uris :: UriPath(uri).None?
  {
    if uris != [] {
      assert uris == [uris[0]] + uris[1..];
      PrimaryIsKnown(uris[1..]);
      if UriPath(uris[0]).None? && Primary("", uris[1..]) != "" {
        var uri :| uri in uris[1..] && UriPath(uri) == Some(Primary("", uris[1..]));
        assert uri in uris;
      }
    }
  }

  /** The file meant is the override or, without one, the file of the first source that is a file. */
  lemma {:induction false} PrimaryIsFirst(configured: string, uris: seq<string>, i: nat, path: string)
    ensures configured != "" ==> Primary(configured, uris) == configured
    ensures configured == "" && i < |uris| && UriPath(uris[i]) == Some(path)
            && (forall j | 0 <= j < i :: UriPath(uris[j]).None?) ==>
              Primary(configured, uris) == path
  {
    if configured == "" && i < |uris| && UriPath(uris[i]) == Some(path) && forall j | 0 <= j < i :: UriPath(uris[j]).None?
    {
      if i > 0 {
        assert UriPath(uris[0]).None? && uris[1..][i - 1] == uris[i];
        assert forall j | 0 <= j < i - 1 :: uris[1..][j] == uris[j + 1];
        PrimaryIsFirst("", uris[1..], i - 1, path);
      }
    }
  }

  class Manager {
    const collector: Collector
    const uris: seq<string>
    const primary: string
    const writeEnabled: bool
    const executable: string

    constructor (collector: Collector, args: seq<string>, configured: string, writeEnabled: bool, executable: string)
      ensures uris == ConfigFlags(args) && primary == Primary(configured, uris)
      ensures this.collector == collector && this.writeEnabled == writeEnabled && this.executable == executable
    {
      var sources := ParseConfigFlags(args);
      this.collector := collector;
      this.uris := sources;
      this.writeEnabled := writeEnabled;
      this.executable := executable;
      var first := configured;
      var i := 0;
      while first == "" && i < |sources|
        invariant 0 <= i <= |sources|
        invariant Primary(first, sources[i..]) == Primary(configured, sources)
      {
        assert sources[i..][1..] == sources[i + 1..];
        if UriPath(sources[i]).Some? {
          first := UriPath(sources[i]).value;
        }
        i := i + 1;
      }
      this.primary := first;
    }

    function Target(path: string): string {
      if path == "" then primary else path
    }

    /** Why a request is turned away before any file is touched. */
    function Rejected(path: string, content: Content): Option<Refusal> {
      if !writeEnabled then Some(WriteDisabled)
      else if Target(path) == "" then Some(NoFile)
      else if !IsKnownPath(uris, Target(path)) then Some(UnknownPath)
      else if content == [] then Some(EmptyConfig)
      else if |content| > MAX_CONFIG_FILE_BYTES then Some(TooLarge)
      else if !collector.isYaml(content) then Some(NotYaml)
      else None
    }

    /** The outcome when nothing fails: the candidate is in place with the previous content backed up and nothing else
        changed, or the dry run turned it down (or there is nothing to run) and the disk is as it was. */
    ghost predicate Faultless(path: string, content: Content, before: Files, after: Files, why: Option<Refusal>) {
      && after == (if why.None? then Committed(before, path, content) else before)
      && (executable == "" <==> why == Some(ValidationUnavailable))
      && (executable != "" ==> why in {None, Some(Invalid)})
      && (executable != "" && Unclashing(uris, before) ==>
            (why.None? <==> Validated(collector, uris, before, path, content)))
    }

    method Stage(disk: Disk, content: Content) returns (tmp: Option<string>)
      requires disk.Valid()
      modifies disk
      ensures disk.Valid() && old(disk.past) <= disk.past
      ensures forall i | |old(disk.past)| <= i < |disk.past| :: OnlyTemps(old(disk.files), disk.past[i])
      ensures OnlyTemps(old(disk.files), disk.files)
      ensures tmp.None? ==> disk.faults > old(disk.faults)
      ensures tmp.Some? ==>
                && IsTemp(tmp.value) && tmp.value !in old(disk.files) && disk.faults == old(disk.faults)
                && disk.files == old(disk.files)[tmp.value := content]
    {
      tmp := disk.CreateTemp();
      if tmp.None? {
        return;
      }
      var ok := disk.Write(tmp.value, content);
      if ok {
        ok := disk.Finish();
      }
      if !ok {
        disk.Remove(tmp.value);
        return None;
      }
    }

    /** Runs the collector's own dry run over the sources with the candidate substituted. A dry run that cannot start
        or runs out of time is unavailable; one that is killed on the way (the agent shutting down, say) reads as
        invalid. */
    method Validate(disk: Disk, path: string, candidate: string) returns (why: Option<Refusal>)
      requires candidate != "" && candidate in disk.files
      modifies disk`faults
      ensures disk.faults >= old(disk.faults) && why in {None, Some(Invalid), Some(ValidationUnavailable)}
      ensures why.None? ==> collector.accepts(View(uris, disk.files[path := disk.files[candidate]]))
      ensures executable == "" ==> why == Some(ValidationUnavailable) && disk.faults == old(disk.faults)
      ensures executable != "" && disk.faults == old(disk.faults) ==>
                why == if collector.accepts(View(uris, disk.files[path := disk.files[candidate]])) then None
                       else Some(Invalid)
    {
      if executable == "" {
        return Some(ValidationUnavailable);
      }
      var args := ValidateArgs(uris, path, candidate);
      var started: bool := *;
      var finished: bool := *;
      if !started || !finished {
        disk.faults := disk.faults + 1;
        var killed: bool := *;
        return Some(if started && killed then Invalid else ValidationUnavailable);
      }
      SourceArgsParse(Substituted(uris, path, candidate));
      DryRunSeesCommit(uris, disk.files, path, candidate);
      if collector.accepts(View(ConfigFlags(args), disk.files)) {
        return None;
      }
      return Some(Invalid);
    }

    method Commit(disk: Disk, path: string, candidate: string) returns (ok: bool)
      requires disk.Valid() && IsTemp(candidate) && candidate in disk.files
      modifies disk
      ensures disk.Valid() && old(disk.past) <= disk.past
      ensures disk.faults >= old(disk.faults)
      ensures disk.faults == old(disk.faults) && candidate != path ==>
                ok && disk.files == Committed(old(disk.files) - {candidate}, path, old(disk.files)[candidate])
      ensures !ok ==> disk.faults > old(disk.faults) && EqualExcept(old(disk.files), disk.files, {Backup(path)})
      ensures !ok ==> disk.files == old(disk.files)
                      || (path in old(disk.files)
                          && PartlyWritten(old(disk.files), disk.files, Backup(path), old(disk.files)[path]))
      ensures ok ==> Replaced(old(disk.files), disk.files, path, candidate)
      ensures forall i | |old(disk.past)| <= i < |disk.past| ::
                || EqualExcept(old(disk.files), disk.past[i], {Backup(path)})
                || Replaced(old(disk.files), disk.past[i], path, candidate)
    {
      BackupIsNoTemp(path);
      var current := disk.ReadFile(path);
      if current.Some? {
        var _ := disk.Write(Backup(path), current.value);
      }
      assert At(disk.files, candidate) == At(old(disk.files), candidate);
      ok := disk.Rename(candidate, path);
    }

    lemma {:induction false} AllTemps(states: seq<Files>, start: nat, before: Files, path: string, content: Content)
      requires Unclashing(uris, before)
      requires forall i | start <= i < |states| :: OnlyTemps(before, states[i])
      ensures AllFollow(collector, uris, before, states, start, path, content)
    {
      forall i | start <= i < |states| ensures MayFollow(collector, uris, before, states[i], path, content) {
        TempsAreNoSources(uris, before, states[i]);
      }
    }

    lemma {:induction false} AllCommitted(states: seq<Files>, start: nat, middle: nat, before: Files, path: string,
                                          candidate: string, content: Content)
      requires Unclashing(uris, before) && IsKnownPath(uris, path) && Spare(before, candidate)
      requires start <= middle <= |states|
      requires AllFollow(collector, uris, before, states[..middle], start, path, content)
      requires Validated(collector, uris, before, path, content)
      requires forall i | middle <= i < |states| ::
                 || EqualExcept(before[candidate := content], states[i], {Backup(path)})
                 || Replaced(before[candidate := content], states[i], path, candidate)
      ensures AllFollow(collector, uris, before, states, start, path, content)
    {
      forall i | start <= i < |states| ensures MayFollow(collector, uris, before, states[i], path, content) {
        if i < middle {
          assert states[..middle][i] == states[i];
        } else if EqualExcept(before[candidate := content], states[i], {Backup(path)}) {
          BackupIsNoSource(uris, before, states[i], path, candidate);
        } else {
          ReplacedIsCommitted(uris, before, states[i], path, candidate, content);
        }
      }
    }

    /** Clearing the staged file after a refusal changes no other file. */
    method Discard(disk: Disk, candidate: string, ghost before: Files, ghost start: nat, ghost path: string,
                   ghost content: Content)
      requires disk.Valid() && Spare(before, candidate) && start <= |disk.past|
      modifies disk
      ensures disk.Valid() && old(disk.past) <= disk.past && disk.faults >= old(disk.faults)
      ensures disk.faults == old(disk.faults) ==> disk.files == old(disk.files) - {candidate}
      ensures EqualExcept(old(disk.files), disk.files, {candidate})
      ensures Unclashing(uris, before) && old(Same(uris, disk.files, before)) ==> Same(uris, disk.files, before)
      ensures Unclashing(uris, before) && old(Same(uris, disk.files, before))
              && old(AllFollow(collector, uris, before, disk.past, start, path, content)) ==>
                AllFollow(collector, uris, before, disk.past, start, path, content)
    {
      disk.Remove(candidate);
      if Unclashing(uris, before) && old(Same(uris, disk.files, before)) {
        assert forall p | IsKnownPath(uris, p) :: p != candidate;
        forall i | |old(disk.past)| <= i < |disk.past| ensures Same(uris, disk.past[i], before) {
        }
      }
    }

    /** A commit that failed, and the staged file cleared or not, leave what a refusal can leave. */
    lemma {:induction false} FailedCommitLeaves(before: Files, committed: Files, after: Files, path: string,
                                                candidate: string, content: Content)
      requires Spare(before, candidate) && EqualExcept(committed, after, {candidate})
      requires EqualExcept(before[candidate := content], committed, {Backup(path)})
      requires committed == before[candidate := content]
               || (path in before[candidate := content]
                   && PartlyWritten(before[candidate := content], committed, Backup(path),
                                    before[candidate := content][path]))
      ensures BackupAtMost(before, after, path)
      ensures !Spare(before, path) ==> RefusalLeaves(before, after, path, CannotReplace)
    {
      BackupIsNoTemp(path);
      var staged := before[candidate := content];
      assert At(after, Backup(path)) == At(committed, Backup(path));
      assert At(staged, Backup(path)) == At(before, Backup(path));
      if committed != staged && path != candidate {
        var n :| 0 <= n <= |staged[path]| && committed == staged[Backup(path) := staged[path][..n]];
        assert At(after, Backup(path)) == Some(before[path][..n]);
      }
    }

    /** Commits a staged and validated candidate, or clears it away. */
    method Land(disk: Disk, target: string, candidate: string, ghost before: Files, ghost start: nat,
                ghost content: Content)
      returns (ok: bool)
      requires disk.Valid() && IsKnownPath(uris, target) && Spare(before, candidate)
      requires disk.files == before[candidate := content] && start <= |disk.past|
      requires Unclashing(uris, before) ==>
                 && AllFollow(collector, uris, before, disk.past, start, target, content)
                 && Validated(collector, uris, before, target, content)
      modifies disk
      ensures disk.Valid() && old(disk.past) <= disk.past && disk.faults >= old(disk.faults)
      ensures disk.faults == old(disk.faults) && !Spare(before, target) ==>
                ok && disk.files == Committed(before, target, content)
      ensures ok ==> At(disk.files, target) == Some(content)
      ensures !ok ==> BackupAtMost(before, disk.files, target)
      ensures !ok && !Spare(before, target) ==> RefusalLeaves(before, disk.files, target, CannotReplace)
      ensures Unclashing(uris, before) ==>
                && AllFollow(collector, uris, before, disk.past, start, target, content)
                && Same(uris, disk.files, if ok then before[target := content] else before)
    {
      ghost var middle := |disk.past|;
      assert before[candidate := content] - {candidate} == before;
      assert disk.past[..middle] == disk.past;
      ok := Commit(disk, target, candidate);
      ghost var committed := disk.files;
      if Unclashing(uris, before) {
        AllCommitted(disk.past, start, middle, before, target, candidate, content);
        if ok {
          ReplacedIsCommitted(uris, before, disk.files, target, candidate, content);
        } else {
          BackupIsNoSource(uris, before, disk.files, target, candidate);
        }
      }
      if !ok {
        Discard(disk, candidate, before, start, target, content);
        FailedCommitLeaves(before, committed, disk.files, target, candidate, content);
      }
    }

    /** Stage, validate, commit; the refusal if there is one. */
    method Replace(disk: Disk, target: string, content: Content) returns (why: Option<Refusal>)
      requires disk.Valid() && IsKnownPath(uris, target)
      modifies disk
      ensures disk.Valid() && old(disk.past) <= disk.past && disk.faults >= old(disk.faults)
      ensures disk.faults == old(disk.faults) && !Spare(old(disk.files), target) ==>
                Faultless(target, content, old(disk.files), disk.files, why)
      ensures why.None? ==> At(disk.files, target) == Some(content)
      ensures why in {None, Some(CannotStage), Some(ValidationUnavailable), Some(Invalid), Some(CannotReplace)}
      ensures why.Some? && why != Some(CannotReplace) ==> OnlyTemps(old(disk.files), disk.files)
      ensures why.Some? ==> BackupAtMost(old(disk.files), disk.files, target)
      ensures why.Some? && !Spare(old(disk.files), target) ==>
                RefusalLeaves(old(disk.files), disk.files, target, why.value)
      ensures Unclashing(uris, old(disk.files)) ==>
                && AllFollow(collector, uris, old(disk.files), disk.past, |old(disk.past)|, target, content)
                && (why.Some? ==> Same(uris, disk.files, old(disk.files)))
                && (why.None? ==>
                    && Validated(collector, uris, old(disk.files), target, content)
                    && Same(uris, disk.files, old(disk.files)[target := content]))
    {
      BackupIsNoTemp(target);
      ghost var before, start := disk.files, |disk.past|;
      var tmp := Stage(disk, content);
      if Unclashing(uris, before) {
        AllTemps(disk.past, start, before, target, content);
        TempsAreNoSources(uris, before, disk.files);
      }
      if tmp.None? {
        return Some(CannotStage);
      }
      var candidate := tmp.value;
      why := Validate(disk, target, candidate);
      if Unclashing(uris, before) {
        StagedVerdict(collector, uris, before, target, candidate, content);
      }
      assert before[candidate := content] - {candidate} == before;
      if why.Some? {
        Discard(disk, candidate, before, start, target, content);
        return;
      }
      var ok := Land(disk, target, candidate, before, start, content);
      return if ok then None else Some(CannotReplace);
    }

    method Apply(disk: Disk, path: string, content: Content, skipReload: bool) returns (out: Outcome)
      requires disk.Valid()
      modifies disk
      ensures disk.Valid() && old(disk.past) <= disk.past && disk.faults >= old(disk.faults)
      ensures Rejected(path, content).Some? ==>
                && out == Refused(Rejected(path, content).value)
                && disk.files == old(disk.files) && disk.past == old(disk.past)
      // the guards, in their order
      ensures !writeEnabled ==> out == Refused(WriteDisabled)
      ensures writeEnabled && path == "" && primary == "" ==> out == Refused(NoFile)
      ensures var file := if path == "" then primary else path;
              writeEnabled && file != "" && (forall uri | uri in uris :: UriPath(uri) != Some(file)) ==>
                out == Refused(UnknownPath)
      ensures var file := if path == "" then primary else path;
              writeEnabled && (exists uri | uri in uris :: UriPath(uri) == Some(file)) ==>
                && (content == [] ==> out == Refused(EmptyConfig))
                && (|content| > 1048576 ==> out == Refused(TooLarge))
                && (0 < |content| <= 1048576 && !collector.isYaml(content) ==> out == Refused(NotYaml))
      ensures out.Refused? && out.why in {WriteDisabled, NoFile, UnknownPath, EmptyConfig, TooLarge, NotYaml} ==>
                disk.files == old(disk.files) && disk.past == old(disk.past)
      ensures out.Applied? ==>
                && writeEnabled && collector.isYaml(content) && 0 < |content| <= 1048576
                && (exists uri | uri in uris :: UriPath(uri) == Some(if path == "" then primary else path))
      // what is written where
      ensures out.Applied? ==> out.reload == !skipReload
      ensures out.Applied? && path != "" ==> At(disk.files, path) == Some(content)
      ensures out.Applied? && path == "" ==> At(disk.files, primary) == Some(content)
      ensures out.Refused? && out.why != CannotReplace ==> OnlyTemps(old(disk.files), disk.files)
      ensures out.Refused? ==> BackupAtMost(old(disk.files), disk.files, Target(path))
      ensures out.Refused? && !Spare(old(disk.files), Target(path)) ==>
                RefusalLeaves(old(disk.files), disk.files, Target(path), out.why)
      ensures disk.faults == old(disk.faults) && Rejected(path, content).None?
              && !Spare(old(disk.files), Target(path)) ==>
                Faultless(Target(path), content, old(disk.files), disk.files,
                          if out.Refused? then Some(out.why) else None)
      ensures Unclashing(uris, old(disk.files)) ==>
                && AllFollow(collector, uris, old(disk.files), disk.past, |old(disk.past)|, Target(path), content)
                && (out.Refused? ==> Same(uris, disk.files, old(disk.files)))
                && (out.Applied? ==>
                    && Validated(collector, uris, old(disk.files), Target(path), content)
                    && Same(uris, disk.files, old(disk.files)[Target(path) := content]))
    {
      if Rejected(path, content).Some? {
        return Refused(Rejected(path, content).value);
      }
      var why := Replace(disk, Target(path), content);
      return if why.Some? then Refused(why.value) else Applied(!skipReload);
    }
  }

  // ----- whole runs -----

  datatype Round = Round(path: string, content: Content)

  /** Apply calls one after the other; a round that stops half-way hands the next one any state it went through. */
  ghost predicate IsRun(c: Collector, uris: seq<string>, states: seq<Files>, rounds: seq<Round>) {
    && |states| == |rounds| + 1
    && forall i {:trigger rounds[i]} | 0 <= i < |rounds| ::
         MayFollow(c, uris, states[i], states[i + 1], rounds[i].path, rounds[i].content)
  }

  lemma {:induction false} RunStep(c: Collector, uris: seq<string>, states: seq<Files>, rounds: seq<Round>, i: nat)
    requires IsRun(c, uris, states, rounds) && i < |rounds|
    ensures MayFollow(c, uris, states[i], states[i + 1], rounds[i].path, rounds[i].content)
  {
  }

  /** A configuration that starts valid is valid after every round, whichever operations failed and wherever the
      process stopped. */
  lemma {:induction false} RunStaysValid(c: Collector, uris: seq<string>, states: seq<Files>, rounds: seq<Round>,
                                         n: nat)
    requires IsRun(c, uris, states, rounds) && n <= |rounds|
    requires c.accepts(View(uris, states[0]))
    ensures c.accepts(View(uris, states[n]))
  {
    if n > 0 {
      RunStaysValid(c, uris, states, rounds, n - 1);
      var before, after, round := states[n - 1], states[n], rounds[n - 1];
      RunStep(c, uris, states, rounds, n - 1);
      if Same(uris, after, before) {
        SameView(uris, after, before);
      } else {
        SameView(uris, after, before[round.path := round.content]);
      }
    }
  }

  /** Sources that do not clash at the start never do, so every round of a run finds what Apply asks for. */
  lemma {:induction false} RunStaysUnclashing(c: Collector, uris: seq<string>, states: seq<Files>, rounds: seq<Round>,
                                              n: nat)
    requires IsRun(c, uris, states, rounds) && n <= |rounds| && Unclashing(uris, states[0])
    ensures Unclashing(uris, states[n])
  {
    if n > 0 {
      RunStaysUnclashing(c, uris, states, rounds, n - 1);
      RunStep(c, uris, states, rounds, n - 1);
      UnclashingKept(c, uris, states[n - 1], states[n], rounds[n - 1].path, rounds[n - 1].content);
    }
  }

  /** The `i`-th round validated, over the disk it found, the content that the file now holds. */
  ghost predicate CameFrom(c: Collector, uris: seq<string>, states: seq<Files>, rounds: seq<Round>, i: nat,
                           path: string, held: Option<Content>)
    requires i < |rounds| && i < |states|
  {
    && rounds[i].path == path && held == Some(rounds[i].content)
    && Validated(c, uris, states[i], path, rounds[i].content)
  }

  /** Every source holds what it started with, or a candidate some round validated. */
  lemma {:induction false} RunHoldsValidated(c: Collector, uris: seq<string>, states: seq<Files>, rounds: seq<Round>,
                                             n: nat, path: string)
    requires IsRun(c, uris, states, rounds) && n <= |rounds| && IsKnownPath(uris, path)
    ensures || At(states[n], path) == At(states[0], path)
            || exists i | 0 <= i < n :: CameFrom(c, uris, states, rounds, i, path, At(states[n], path))
  {
    if n > 0 {
      RunHoldsValidated(c, uris, states, rounds, n - 1, path);
      var before, after, round := states[n - 1], states[n], rounds[n - 1];
      RunStep(c, uris, states, rounds, n - 1);
      if At(after, path) == At(before, path) {
        if At(before, path) != At(states[0], path) {
          var i :| 0 <= i < n - 1 && CameFrom(c, uris, states, rounds, i, path, At(before, path));
          assert CameFrom(c, uris, states, rounds, i, path, At(after, path));
        }
      } else {
        assert CameFrom(c, uris, states, rounds, n - 1, path, At(after, path));
      }
    }
  }

  /** A commit in which nothing failed: the candidate is at the target, what the target held is its backup, and no other
      file has changed. */
  lemma {:induction false} CommittedExact(files: Files, path: string, content: Content)
    ensures var after := Committed(files, path, content);
            && At(after, path) == Some(content)
            && At(after, path + ".bak") == (if path in files then Some(files[path]) else At(files, path + ".bak"))
            && forall p | p != path && p != path + ".bak" :: At(after, p) == At(files, p)
  {
    BackupIsNoTemp(path);
  }

  // ----- when a backup is itself a source -----

  /** If the backup of the target is no source, a validated candidate leaves a valid configuration. */
  lemma {:induction false} CommitKeepsValid(c: Collector, uris: seq<string>, before: Files, path: string,
                                            content: Content)
    requires !IsKnownPath(uris, Backup(path)) && Validated(c, uris, before, path, content)
    ensures c.accepts(View(uris, Committed(before, path, content)))
  {
    BackupIsNoTemp(path);
    var after := Committed(before, path, content);
    forall p | IsKnownPath(uris, p) ensures At(after, p) == At(before[path := content], p) {
      assert p != Backup(path);
    }
    SameView(uris, after, before[path := content]);
  }

  /** If it is one, a validated candidate can leave an invalid configuration: the backup overwrites a source after the
      dry run has passed. */
  lemma {:induction false} BackupClashBreaks(uris: seq<string>, path: string)
    returns (c: Collector, before: Files, content: Content)
    requires IsKnownPath(uris, path) && IsKnownPath(uris, Backup(path))
    ensures c.accepts(View(uris, before)) && Validated(c, uris, before, path, content)
    ensures !c.accepts(View(uris, Committed(before, path, content)))
  {
    BackupIsNoTemp(path);
    before, content := map[path := [1], Backup(path) := [2]], [3];
    var after := Committed(before, path, content);
    var bad := View(uris, after);
    c := Collector(_ => true, v => v != bad);
    ViewsDiffer(uris, before, after, path);
    ViewsDiffer(uris, before[path := content], after, Backup(path));
  }

  lemma {:induction false} ViewsDiffer(uris: seq<string>, a: Files, b: Files, path: string)
    requires IsKnownPath(uris, path) && At(a, path) != At(b, path)
    ensures View(uris, a) != View(uris, b)
  {
    var uri :| uri in uris && UriPath(uri) == Some(path);
    var i :| 0 <= i < |uris| && uris[i] == uri;
    ViewAt(uris, a, i);
    ViewAt(uris, b, i);
  }
}
