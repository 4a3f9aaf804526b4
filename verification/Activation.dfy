/** Profile activation (infra/hermes/control_server.py): importing a staged bundle
    into the runtime root by a temporary directory and one rename, under a lock,
    beside readers that take no lock. */
module Activation {
  import opened Wrappers
  import opened Faults
  import opened EnvFile

  // ----- names

  predicate Alphanumeric(c: char) {
    'A' <= c <= 'Z' || 'a' <= c <= 'z' || '0' <= c <= '9'
  }

  /** PROFILE_NAME */
  predicate ProfileName(name: string) {
    && 2 <= |name| <= 160
    && Alphanumeric(name[0])
    && forall i :: 1 <= i < |name| ==> Alphanumeric(name[i]) || name[i] in {'_', '-'}
  }

  /** The name `mkdtemp` gives the temporary directory of a target. */
  function TemporaryName(target: string, suffix: string): string {
    "." + target + ".activate-" + suffix
  }

  /** A temporary directory can never be resolved as a profile. */
  lemma TemporaryIsNoProfile(target: string, suffix: string)
    ensures !ProfileName(TemporaryName(target, suffix))
  {
    assert TemporaryName(target, suffix)[0] == '.';
  }

  // ----- the runtime root

  /** A file's text and its size in bytes. */
  datatype Content = Content(text: string, size: nat)

  type Bundle = map<string, Content>

  /** An entry of the root: a directory, or anything else (a file, a symlink). */
  datatype Entry = Directory(files: Bundle, directories: set<string>) | Alien

  type Root = map<string, Entry>

  const CAPABILITIES := ".bumpa-capabilities-v2"
  const ENV := ".env"
  const CONFIG := "config.yaml"
  const SOUL := "SOUL.md"
  const PROFILE_FILES: set<string> := {CAPABILITIES, ENV, CONFIG, SOUL}
  const PROFILE_DIRECTORIES: set<string> := {"skills", "memories", "sessions", "cron"}
  const MAX_PROFILE_FILE_BYTES := 131072
  const MAX_PROFILE_BYTES := 262144

  predicate WithinLimits(files: Bundle)
    requires files.Keys >= PROFILE_FILES
  {
    && (forall name :: name in PROFILE_FILES ==> files[name].size <= MAX_PROFILE_FILE_BYTES)
    && files[CAPABILITIES].size + files[ENV].size + files[CONFIG].size + files[SOUL].size <= MAX_PROFILE_BYTES
  }

  /** A bundle as `_read_staged_profile` returns it. */
  datatype Staged = Staged(files: Bundle, runtime: Runtime)

  predicate ValidStaged(staged: Staged, toInt: string -> Option<int>) {
    && staged.files.Keys == PROFILE_FILES
    && WithinLimits(staged.files)
    && RuntimeValues(staged.files[ENV].text, toInt) == Some(staged.runtime)
  }

  /** A published bundle: the staged files and the empty directories. */
  function Published(staged: Staged): Entry {
    Directory(staged.files, PROFILE_DIRECTORIES)
  }

  /** `hmac.compare_digest` raises TypeError on text that is not ASCII. */
  predicate Ascii(text: string) {
    forall i :: 0 <= i < |text| ==> text[i] <= '\U{7F}'
  }

  /** What an entry's profile files read as; None where reading them raises. */
  function RuntimeFiles(entry: Entry): Option<Bundle> {
    if entry.Directory? && entry.files.Keys >= PROFILE_FILES && WithinLimits(entry.files)
    then Some(map name | name in PROFILE_FILES :: entry.files[name]) else None
  }

  function EntryRuntime(entry: Entry, toInt: string -> Option<int>): Option<Runtime> {
    if entry.Directory? && ENV in entry.files then ProfileRuntime(entry.files[ENV].text, toInt) else None
  }

  // ----- what readers can resolve

  /** `after` holds every profile `before` holds, unchanged. */
  ghost predicate WriteOnce(before: Root, after: Root) {
    forall name :: ProfileName(name) && name in before ==> name in after && after[name] == before[name]
  }

  /** Every profile of `now` is one of `initial`'s, or the whole bundle of one of the
      requests for that name. */
  ghost predicate OnlyPublished(initial: Root, now: Root, requests: set<Request>) {
    forall name :: ProfileName(name) && name in now && name !in initial ==>
                     exists r :: r in requests && r.name == name && now[name] == Published(r.staged)
  }

  datatype Request = Request(name: string, staged: Staged)

  /** The log of a stretch: states only grow, and hold only whole bundles. */
  ghost predicate Faithful(before: seq<Root>, after: seq<Root>, requests: set<Request>) {
    && 0 < |before| <= |after|
    && after[..|before|] == before
    && (forall i, j :: |before| - 1 <= i <= j < |after| ==> WriteOnce(after[i], after[j]))
    && forall i :: |before| <= i < |after| ==> OnlyPublished(before[|before| - 1], after[i], requests)
  }

  lemma FaithfulChains(a: seq<Root>, b: seq<Root>, c: seq<Root>, requests: set<Request>)
    requires Faithful(a, b, requests) && Faithful(b, c, requests)
    ensures Faithful(a, c, requests)
  {
    assert a == c[..|a|];
    forall i, j | |a| - 1 <= i <= j < |c| ensures WriteOnce(c[i], c[j]) {
      var m := |b| - 1;
      assert i <= m ==> c[i] == b[i];
      assert j <= m ==> c[j] == b[j];
      if i <= m < j {
        assert WriteOnce(c[i], c[m]) && WriteOnce(c[m], c[j]);
      }
    }
    forall i | |a| <= i < |c| ensures OnlyPublished(a[|a| - 1], c[i], requests) {
      var m := |b| - 1;
      assert c[m] == b[m];
      if i <= m {
        assert c[i] == b[i];
      } else {
        assert OnlyPublished(b[m], c[i], requests);
        assert m < |a| || OnlyPublished(a[|a| - 1], b[m], requests);
        assert WriteOnce(c[m], c[i]);
      }
    }
  }

  /** A reader that takes no lock sees some state at each of its steps. Once it has
      resolved a name, every later step of it sees the same entry under that name,
      whatever activations run in between; and that entry was there from the start
      or is the whole bundle of a request for that name. */
  lemma ReaderIsConsistent(before: seq<Root>, after: seq<Root>, requests: set<Request>, name: string, i: nat, j: nat)
    requires Faithful(before, after, requests) && ProfileName(name)
    requires |before| - 1 <= i <= j < |after| && name in after[i]
    ensures name in after[j] && after[j][name] == after[i][name]
    ensures || (name in before[|before| - 1] && after[i][name] == before[|before| - 1][name])
            || exists r :: r in requests && r.name == name && after[i][name] == Published(r.staged)
  {
    assert WriteOnce(after[i], after[j]);
    assert after[|before| - 1] == before[|before| - 1];
    assert WriteOnce(after[|before| - 1], after[i]);
    assert i < |before| || OnlyPublished(before[|before| - 1], after[i], requests);
  }

  // ----- a free temporary name

  lemma {:induction false} LengthBound(names: set<string>) returns (n: nat)
    ensures forall name :: name in names ==> |name| <= n
  {
    n := 0;
    if names != {} {
      var name :| name in names;
      n := LengthBound(names - {name});
      if |name| > n {
        n := |name|;
      }
    }
  }

  lemma FreeNameExists(root: Root, target: string)
    ensures exists suffix: string :: TemporaryName(target, suffix) !in root
  {
    var n := LengthBound(root.Keys);
    var suffix := seq(n, i => 'x');
    assert |TemporaryName(target, suffix)| > n;
    assert TemporaryName(target, suffix) !in root;
  }

  // ----- single changes of the root

  /** The root differs at most at one name. */
  ghost predicate SameBut(a: Root, b: Root, name: string) {
    forall n :: n != name ==> (n in a <==> n in b) && (n in a && n in b ==> a[n] == b[n])
  }

  function WithEntry(root: Root, name: string, entry: Option<Entry>): Root {
    if entry.Some? then root[name := entry.value] else root - {name}
  }

  function Renamed(root: Root, source: string, target: string): Root
    requires source in root
  {
    (root - {source})[target := root[source]]
  }

  lemma Unchanged(log: seq<Root>, requests: set<Request>)
    requires log != []
    ensures Faithful(log, log, requests)
  {
  }

  /** A change at a name no profile can have shows to no reader. */
  lemma TemporaryStep(log: seq<Root>, next: Root, temporary: string, requests: set<Request>)
    requires log != [] && !ProfileName(temporary) && SameBut(log[|log| - 1], next, temporary)
    ensures Faithful(log, log + [next], requests)
  {
  }

  /** The rename of a complete temporary directory publishes the whole bundle. */
  lemma PublishingStep(log: seq<Root>, temporary: string, request: Request, requests: set<Request>)
    requires log != [] && request in requests && !ProfileName(temporary)
    requires temporary in log[|log| - 1] && request.name !in log[|log| - 1]
    requires log[|log| - 1][temporary] == Published(request.staged)
    ensures Faithful(log, log + [Renamed(log[|log| - 1], temporary, request.name)], requests)
  {
  }

  lemma SameElsewhere(a: Root, b: Root, name: string)
    requires SameBut(a, b, name)
    ensures a - {name} == b - {name}
  {
  }

  /** The root without the temporary directory, after the rename and after the removal. */
  lemma RenamedElsewhere(root: Root, temporary: string, target: string)
    requires temporary in root && temporary != target
    ensures var next := Renamed(root, temporary, target);
            && temporary !in next && target in next
            && next - {temporary} == (root - {temporary})[target := root[temporary]]
  {
  }

  lemma RemovedElsewhere(root: Root, temporary: string)
    ensures WithEntry(root, temporary, None) - {temporary} == root - {temporary}
    ensures temporary !in WithEntry(root, temporary, None)
    ensures forall n :: n != temporary ==> (n in WithEntry(root, temporary, None) <==> n in root)
  {
  }

  /** The root is `base`, but for one temporary directory that may be left in it. */
  ghost predicate Residue(base: Root, root: Root, left: Option<string>) {
    match left
    case None => root == base
    case Some(temporary) =>
      !ProfileName(temporary) && temporary !in base && temporary in root && root - {temporary} == base
  }

  /** The root an activation of a free name aims at, if it got as far as the rename. */
  function Aimed(before: Root, now: Root, name: string, staged: Staged): Root {
    if name in now && name !in before then before[name := Published(staged)] else before
  }

  /** Every entry is still there, unchanged. */
  predicate Keeps(before: Root, after: Root) {
    forall name :: name in before ==> name in after && after[name] == before[name]
  }

  /** A step that may have taken effect did. */
  predicate Takes(plan: Plan, b: nat) {
    At(plan, b) in {Fine, Raised(true)}
  }

  /** What comparing an existing entry with a staged bundle comes to, if nothing fails. */
  function Compare(entry: Entry, staged: Staged, toInt: string -> Option<int>): Result {
    if entry.Alien? then Conflict
    else if EntryRuntime(entry, toInt).None? then NotFound
    else if RuntimeFiles(entry).None? then Conflict
    else if !Ascii(EntryRuntime(entry, toInt).value.key) || !Ascii(staged.runtime.key) then Crashed
    else if EntryRuntime(entry, toInt).value != staged.runtime
        || RuntimeFiles(entry).value != staged.files then Conflict
    else Activated
  }

  /** A published bundle compares as the same exactly with a bundle of the same
      files; this is where the two `.env` readers must agree. */
  lemma ComparisonIsEquality(published: Staged, staged: Staged, toInt: string -> Option<int>)
    requires ValidStaged(published, toInt) && ValidStaged(staged, toInt)
    ensures Compare(Published(published), staged, toInt) ==
            if !Ascii(published.runtime.key) || !Ascii(staged.runtime.key) then Crashed
            else if published.files == staged.files then Activated
            else Conflict
  {
    ReadersAgree(published.files[ENV].text, toInt);
    assert RuntimeFiles(Published(published)).value == published.files;
  }

  /** An existing entry is accepted exactly if its four profile files are those staged
      and the key is ASCII, whatever else it holds. */
  lemma ComparisonAccepts(entry: Entry, staged: Staged, toInt: string -> Option<int>)
    requires ValidStaged(staged, toInt)
    ensures Compare(entry, staged, toInt).Activated? <==>
            && Ascii(staged.runtime.key) && entry.Directory?
            && forall name :: name in PROFILE_FILES ==> name in entry.files && entry.files[name] == staged.files[name]
  {
    hide RuntimeValues, ProfileRuntime;
    ReadersAgree(staged.files[ENV].text, toInt);
    if entry.Directory? && forall name :: name in PROFILE_FILES ==> name in entry.files {
      var read := map name | name in PROFILE_FILES :: entry.files[name];
      if forall name :: name in PROFILE_FILES ==> entry.files[name] == staged.files[name] {
        assert read == staged.files;
      }
      assert read == staged.files ==> forall name :: name in PROFILE_FILES ==> read[name] == staged.files[name];
    }
  }

  /** How `_write_runtime_profile` ends: normally, with FileExistsError, with another
      OSError. */
  datatype WriteExit = Written | Exists | OsFailed

  /** How `activate_profile` ends: with a path, with one of its three errors, or with
      an uncaught TypeError from the key comparison. */
  datatype Result = Activated | Conflict | Unavailable | NotFound | Crashed

  class Home {
    const toInt: string -> Option<int>
    /** Whether the runtime root resolves to a real directory. */
    const usable: bool
    /** How the file operations go, one after another. */
    const plan: Plan
    var root: Root
    /** How many of them have gone. */
    var clock: nat
    /** Every state of the root, one entry per file operation. */
    ghost var log: seq<Root>

    ghost predicate Valid()
      reads this
    {
      log != [] && log[|log| - 1] == root
    }

    constructor (toInt: string -> Option<int>, usable: bool, root: Root, plan: Plan)
      ensures Valid() && this.toInt == toInt && this.usable == usable && this.root == root && this.plan == plan
      ensures log == [root] && clock == 0
    {
      this.toInt, this.usable, this.root, this.plan := toInt, usable, root, plan;
      clock := 0;
      log := [root];
    }

    method Step() returns (outcome: Outcome)
      modifies `clock
      ensures outcome == At(plan, old(clock)) && clock == old(clock) + 1
    {
      outcome := if clock < |plan| then plan[clock] else Fine;
      clock := clock + 1;
    }

    /** One operation on a temporary directory: it becomes `entry`, or goes. */
    method Touch(temporary: string, entry: Option<Entry>, ghost requests: set<Request>) returns (ok: bool)
      requires Valid() && !ProfileName(temporary)
      modifies this
      ensures Valid() && Faithful(old(log), log, requests) && clock == old(clock) + 1
      ensures root == if Takes(plan, old(clock)) then WithEntry(old(root), temporary, entry) else old(root)
      ensures SameBut(old(root), root, temporary)
      ensures ok <==> At(plan, old(clock)) == Fine
    {
      var outcome := Step();
      if outcome == Fine || outcome == Raised(true) {
        root := WithEntry(root, temporary, entry);
      }
      TemporaryStep(log, root, temporary, requests);
      log := log + [root];
      ok := outcome == Fine;
    }

    /** `mkdtemp` and `chmod`. If either fails, nothing removes what was made. */
    method MakeTemporary(target: string, ghost requests: set<Request>)
      returns (temporary: Option<string>, ghost left: Option<string>)
      requires Valid()
      modifies this
      ensures Valid() && Faithful(old(log), log, requests)
      ensures old(clock) < clock <= old(clock) + 2
      ensures temporary.Some? <==> Went(plan, old(clock), old(clock) + 2)
      ensures temporary.Some? ==> left == temporary && clock == old(clock) + 2 && temporary.value != target
      ensures Went(plan, old(clock), clock) ==> temporary.Some?
      ensures left.Some? <==> Takes(plan, old(clock))
      ensures Residue(old(root), root, left) && (left.Some? ==> root[left.value] == Directory(map[], {}))
    {
      FreeNameExists(root, target);
      var suffix: string :| TemporaryName(target, suffix) !in root;
      var name := TemporaryName(target, suffix);
      TemporaryIsNoProfile(target, suffix);
      assert |name| > |target|;
      ghost var r0 := root;
      left := if Takes(plan, clock) then Some(name) else None;
      var made := Touch(name, Some(Directory(map[], {})), requests);
      assert r0[name := Directory(map[], {})] - {name} == r0;
      if !made {
        return None, left;
      }
      var private := Step();
      return if private == Fine then Some(name) else None, left;
    }

    method MakeDirectories(temporary: string, ghost requests: set<Request>) returns (ok: bool)
      requires Valid() && !ProfileName(temporary) && temporary in root && root[temporary] == Directory(map[], {})
      modifies this
      ensures Valid() && Faithful(old(log), log, requests) && SameBut(old(root), root, temporary)
      ensures temporary in root && clock >= old(clock)
      ensures ok ==> root[temporary] == Directory(map[], PROFILE_DIRECTORIES)
      ensures ok <==> Went(plan, old(clock), clock)
    {
      var todo := PROFILE_DIRECTORIES;
      Unchanged(log, requests);
      while todo != {}
        invariant todo <= PROFILE_DIRECTORIES
        invariant Valid() && Faithful(old(log), log, requests) && SameBut(old(root), root, temporary)
        invariant temporary in root && root[temporary] == Directory(map[], PROFILE_DIRECTORIES - todo)
        invariant clock >= old(clock) && Went(plan, old(clock), clock)
        decreases todo
      {
        var name :| name in todo;
        ghost var between := log;
        ok := Touch(temporary, Some(Directory(map[], PROFILE_DIRECTORIES - todo + {name})), requests);
        FaithfulChains(old(log), between, log, requests);
        if !ok {
          return;
        }
        todo := todo - {name};
        assert PROFILE_DIRECTORIES - todo == PROFILE_DIRECTORIES - (todo + {name}) + {name};
      }
      return true;
    }

    /** Creates a file empty, writes it, and syncs it. */
    method WriteFile(temporary: string, done: Bundle, name: string, content: Content, ghost requests: set<Request>)
      returns (ok: bool)
      requires Valid() && !ProfileName(temporary) && temporary in root
          && root[temporary] == Directory(done, PROFILE_DIRECTORIES)
      modifies this
      ensures Valid() && Faithful(old(log), log, requests) && SameBut(old(root), root, temporary)
      ensures temporary in root && clock >= old(clock)
      ensures ok ==> root[temporary] == Directory(done[name := content], PROFILE_DIRECTORIES)
      ensures ok <==> Went(plan, old(clock), old(clock) + 3)
      ensures ok ==> clock == old(clock) + 3
      ensures Went(plan, old(clock), clock) ==> ok
    {
      hide Faithful, ProfileName;
      ok := Touch(temporary, Some(Directory(done[name := Content("", 0)], PROFILE_DIRECTORIES)), requests);
      if !ok {
        return;
      }
      ghost var between := log;
      ok := Touch(temporary, Some(Directory(done[name := content], PROFILE_DIRECTORIES)), requests);
      FaithfulChains(old(log), between, log, requests);
      if ok {
        var synced := Step();
        ok := synced == Fine;
      }
    }

    method WriteFiles(temporary: string, files: Bundle, ghost requests: set<Request>) returns (ok: bool)
      requires Valid() && !ProfileName(temporary) && temporary in root
          && root[temporary] == Directory(map[], PROFILE_DIRECTORIES)
      modifies this
      ensures Valid() && Faithful(old(log), log, requests) && SameBut(old(root), root, temporary)
      ensures temporary in root && clock >= old(clock)
      ensures ok ==> root[temporary] == Directory(files, PROFILE_DIRECTORIES)
      ensures ok <==> Went(plan, old(clock), clock)
    {
      hide Faithful, ProfileName;
      var todo := files.Keys;
      var done: Bundle := map[];
      Unchanged(log, requests);
      while todo != {}
        invariant todo <= files.Keys && done.Keys == files.Keys - todo
        invariant forall name :: name in done ==> done[name] == files[name]
        invariant Valid() && Faithful(old(log), log, requests) && SameBut(old(root), root, temporary)
        invariant temporary in root && root[temporary] == Directory(done, PROFILE_DIRECTORIES)
        invariant clock >= old(clock) && Went(plan, old(clock), clock)
        decreases todo
      {
        var name :| name in todo;
        ghost var between := log;
        ok := WriteFile(temporary, done, name, files[name], requests);
        FaithfulChains(old(log), between, log, requests);
        if !ok {
          return;
        }
        todo, done := todo - {name}, done[name := files[name]];
      }
      assert done == files;
      return true;
    }

    /** The rename, and the sync of the root. */
    method Publish(temporary: string, target: string, staged: Staged, ghost requests: set<Request>) returns (ok: bool)
      requires Valid() && !ProfileName(temporary) && ProfileName(target) && Request(target, staged) in requests
      requires temporary in root && root[temporary] == Published(staged) && target !in root
      modifies this
      ensures Valid() && Faithful(old(log), log, requests)
      ensures root == if Takes(plan, old(clock)) then Renamed(old(root), temporary, target) else old(root)
      ensures old(clock) < clock <= old(clock) + 2
      ensures ok <==> Went(plan, old(clock), old(clock) + 2)
      ensures ok ==> clock == old(clock) + 2
      ensures Went(plan, old(clock), clock) ==> ok
    {
      Unchanged(log, requests);
      var renamed := Step();
      if renamed == Fine || renamed == Raised(true) {
        PublishingStep(log, temporary, Request(target, staged), requests);
        root := Renamed(root, temporary, target);
        log := log + [root];
      }
      if renamed != Fine {
        return false;
      }
      var synced := Step();
      ok := synced == Fine;
    }

    /** `_write_runtime_profile`. Apart from the target, which it publishes whole or not
        at all, the root ends as it was, but for its temporary directory, which is left
        exactly if the rename did not take it away and its removal, the step `removal`,
        did not take effect; or if it was made but not made private, when there is no
        removal. */
    method WriteRuntimeProfile(target: string, staged: Staged, ghost requests: set<Request>)
      returns (exit: WriteExit, ghost removal: Option<nat>, ghost left: Option<string>)
      requires Valid() && ProfileName(target) && Request(target, staged) in requests
      modifies this
      ensures Valid() && Faithful(old(log), log, requests)
      ensures Residue(Aimed(old(root), root, target, staged), root, left)
      ensures exit.Written? ==> target !in old(root) && target in root
      ensures exit.Exists? ==> target in old(root)
      ensures left.Some? <==>
                && !exit.Written? && !(target in root && target !in old(root))
                && if removal.Some? then !Takes(plan, removal.value) else Takes(plan, old(clock))
      ensures if removal.Some?
              then clock == removal.value + 1 && !exit.Written? && Went(plan, old(clock), old(clock) + 2)
              else exit.Written? || (exit.OsFailed? && !Went(plan, old(clock), old(clock) + 2))
      ensures clock > old(clock)
      ensures Went(plan, old(clock), clock) ==> exit == (if target in old(root) then Exists else Written) && left.None?
      ensures exit.Written? ==> Went(plan, old(clock), clock)
    {
      hide Faithful, ProfileName;
      ghost var r0, l0 := root, log;
      var made: Option<string>;
      removal := None;
      made, left := MakeTemporary(target, requests);
      ghost var l1 := log;
      if made.None? {
        return OsFailed, removal, left;
      }
      assert root - {made.value} == r0;
      exit, removal := WriteInto(made.value, target, staged, requests);
      FaithfulChains(l0, l1, log, requests);
      if made.value !in root {
        left := None;
        assert root - {made.value} == root;
      }
    }

    /** The `try` of `_write_runtime_profile` and its clean-up. */
    method WriteInto(temporary: string, target: string, staged: Staged, ghost requests: set<Request>)
      returns (exit: WriteExit, ghost removal: Option<nat>)
      requires Valid() && ProfileName(target) && Request(target, staged) in requests
      requires !ProfileName(temporary) && temporary in root && root[temporary] == Directory(map[], {})
      modifies this
      ensures Valid() && Faithful(old(log), log, requests)
      ensures root - {temporary} == Aimed(old(root) - {temporary}, root, target, staged)
      ensures exit.Written? ==> target !in old(root) && target in root
      ensures exit.Exists? ==> target in old(root)
      ensures exit.Written? <==> removal.None?
      ensures removal.Some? ==> clock == removal.value + 1
      ensures temporary !in root <==>
                exit.Written? || (target in root && target !in old(root)) || Takes(plan, removal.value)
      ensures clock >= old(clock)
      ensures Went(plan, old(clock), clock) ==> exit == if target in old(root) then Exists else Written
      ensures exit.Written? ==> Went(plan, old(clock), clock)
    {
      hide Faithful, ProfileName, SameBut, Renamed, WithEntry;
      ghost var r0, l0 := root, log;
      assert target != temporary;
      removal := None;
      var ok := MakeDirectories(temporary, requests);
      SameElsewhere(r0, root, temporary);
      if ok {
        ghost var r1, l1 := root, log;
        ok := WriteFiles(temporary, staged.files, requests);
        SameElsewhere(r1, root, temporary);
        FaithfulChains(l0, l1, log, requests);
      }
      assert target in root <==> target in root - {temporary};
      assert target in r0 <==> target in r0 - {temporary};
      exit := OsFailed;
      if ok {
        if target in root {
          exit := Exists;
        } else {
          ghost var l2 := log;
          RenamedElsewhere(root, temporary, target);
          var published := Publish(temporary, target, staged, requests);
          FaithfulChains(l0, l2, log, requests);
          if published {
            return Written, removal;
          }
        }
      }
      ghost var l3 := log;
      removal := Some(clock);
      RemovedElsewhere(root, temporary);
      var cleaned := Touch(temporary, None, requests);
      FaithfulChains(l0, l3, log, requests);
    }

    /** The comparison with an existing directory. */
    method CheckExisting(entry: Entry, staged: Staged) returns (r: Result)
      requires entry.Directory?
      modifies `clock
      ensures r.Activated? ==> Compare(entry, staged, toInt).Activated?
      ensures clock >= old(clock) && !r.Unavailable?
      ensures Went(plan, old(clock), clock) ==> r == Compare(entry, staged, toInt)
      ensures r.Activated? ==> Went(plan, old(clock), clock)
    {
      hide ProfileRuntime, LastSays, SplitLines, WithinLimits, Ascii;
      var readable := Step();
      if readable != Fine || ENV !in entry.files {
        return NotFound;
      }
      var runtime := ReadProfileRuntime(entry.files[ENV].text, toInt);
      if runtime.None? {
        return NotFound;
      }
      var accessible := Step();
      var files := RuntimeFiles(entry);
      if accessible != Fine || files.None? {
        return Conflict;
      }
      if !Ascii(runtime.value.key) || !Ascii(staged.runtime.key) {
        return Crashed;
      }
      if runtime.value.key != staged.runtime.key || runtime.value.port != staged.runtime.port
         || files.value != staged.files
      {
        return Conflict;
      }
      return Activated;
    }

    /** What `activate_profile` comes to if nothing fails. */
    function Outcomes(now: Root, name: string, staged: Staged): Result {
      if !usable then Unavailable
      else if name in now then Compare(now[name], staged, toInt)
      else Activated
    }

    /** `activate_profile`, called with the lock held. Whatever fails, every entry of the
        root stays as it is, and nothing is new but the whole profile, if at all, and one
        temporary directory, if that could not be removed. */
    method ActivateProfile(name: string, staged: Staged, ghost requests: set<Request>)
      returns (r: Result, ghost left: Option<string>)
      requires Valid() && ProfileName(name) && Request(name, staged) in requests
      modifies this
      ensures Valid() && Faithful(old(log), log, requests) && clock > old(clock)
      ensures Residue(Aimed(old(root), root, name, staged), root, left)
      ensures r.Activated? ==>
                && name in root
                && (root[name] == Published(staged) || Compare(root[name], staged, toInt).Activated?)
      ensures r.Conflict? ==> name in old(root)
      ensures !usable ==> r.Unavailable? && root == old(root)
      ensures Went(plan, old(clock), clock) ==> r == Outcomes(old(root), name, staged) && left.None?
      ensures r.Activated? ==> At(plan, old(clock)) == Fine && Went(plan, old(clock) + 2, clock)
    {
      hide Faithful, ProfileName, Compare;
      left := None;
      Unchanged(log, requests);
      ghost var r0 := root;
      var resolved := Step();
      if resolved != Fine || !usable {
        return Unavailable, left;
      }
      var found := Step();
      if found == Fine && name in root && root[name].Directory? {
        r := CheckExisting(root[name], staged);
        return;
      }
      var exit: WriteExit;
      ghost var removal: Option<nat>;
      exit, removal, left := WriteRuntimeProfile(name, staged, requests);
      match exit
      case Exists =>
        AlienConflicts(r0, name, staged);
        return Conflict, left;
      case OsFailed =>
        AlienConflicts(r0, name, staged);
        return Unavailable, left;
      case Written =>
        var again := Step();
        return if again == Fine then Activated else NotFound, left;
    }

    lemma AlienConflicts(now: Root, name: string, staged: Staged)
      ensures name in now && now[name].Alien? ==> Compare(now[name], staged, toInt) == Conflict
    {
    }

    /** An activation with any failures, which leaves the root `middle`, then a retry
        with the same bundle, from the step `retry` on. If nothing fails then, the retry of
        a name that was free succeeds unless the first attempt, whatever it reported,
        published the bundle and the key is not ASCII; an existing profile is only ever
        compared. */
    method ActivateAndRetry(name: string, staged: Staged)
      returns (first: Result, second: Result, ghost middle: Root, ghost retry: nat)
      requires Valid() && ProfileName(name) && ValidStaged(staged, toInt)
      modifies this
      ensures Valid() && Faithful(old(log), log, {Request(name, staged)})
      ensures middle in log && retry > old(clock) && Keeps(old(root), middle) && Keeps(middle, root)
      ensures name !in old(root) && name in middle ==> middle[name] == Published(staged)
      ensures name !in old(root) && first == Activated ==> name in middle
      ensures Went(plan, retry, clock) ==> second == Outcomes(middle, name, staged)
      ensures Went(plan, retry, clock) && name !in old(root) && usable ==>
                second == if name in middle && !Ascii(staged.runtime.key) then Crashed else Activated
      ensures name !in old(root) && second == Activated ==> name in root && root[name] == Published(staged)
    {
      hide Faithful, ProfileName, Compare, ValidStaged;
      ghost var requests := {Request(name, staged)};
      ghost var r0, l0 := root, log;
      ghost var left: Option<string>;
      first, left := ActivateProfile(name, staged, requests);
      ResidueKeeps(r0, root, name, staged, left);
      ComparisonIsEquality(staged, staged, toInt);
      middle, retry := root, clock;
      ghost var l1 := log;
      second, left := ActivateProfile(name, staged, requests);
      ResidueKeeps(middle, root, name, staged, left);
      FaithfulChains(l0, l1, log, requests);
      StaysLogged(l0, l1, log, requests);
    }

    lemma StaysLogged(a: seq<Root>, b: seq<Root>, c: seq<Root>, requests: set<Request>)
      requires b != [] && Faithful(b, c, requests)
      ensures b[|b| - 1] in c
    {
      assert b == c[..|b|];
      assert b[|b| - 1] == c[|b| - 1];
    }

    /** Any number of activations, one at a time, with any failures: every entry stays;
        and if nothing fails, nothing is new but profiles asked for. */
    method Serve(requests: seq<Request>)
      requires Valid() && forall r :: r in requests ==> ProfileName(r.name)
      modifies this
      ensures Valid() && Faithful(old(log), log, set r | r in requests) && Keeps(old(root), root)
      ensures Went(plan, old(clock), clock) ==> root.Keys <= old(root).Keys + set r | r in requests :: r.name
    {
      hide Faithful, ProfileName, Compare;
      ghost var all := set r | r in requests;
      ghost var names := set r | r in requests :: r.name;
      Unchanged(log, all);
      for k := 0 to |requests|
        invariant Valid() && Faithful(old(log), log, all) && Keeps(old(root), root)
        invariant clock >= old(clock)
        invariant Went(plan, old(clock), clock) ==> root.Keys <= old(root).Keys + names
      {
        ghost var before, between := root, log;
        var request := requests[k];
        assert request in all && request == Request(request.name, request.staged);
        assert request.name in names;
        var r: Result;
        ghost var left: Option<string>;
        r, left := ActivateProfile(request.name, request.staged, all);
        ResidueKeeps(before, root, request.name, request.staged, left);
        FaithfulChains(old(log), between, log, all);
      }
    }
  }

  lemma ResidueKeeps(before: Root, now: Root, name: string, staged: Staged, left: Option<string>)
    requires Residue(Aimed(before, now, name, staged), now, left)
    ensures Keeps(before, now)
    ensures name in now && name !in before ==> left == Some(name) || now[name] == Published(staged)
    ensures left.None? ==> now.Keys <= before.Keys + {name}
  {
    var base := Aimed(before, now, name, staged);
    if left.Some? {
      forall n | n in base ensures n in now && now[n] == base[n] {
        assert n in now - {left.value} && (now - {left.value})[n] == base[n];
      }
    }
  }
}
