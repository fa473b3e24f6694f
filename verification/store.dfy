/** The versioned store of report configurations: what save, create, archive and seeding keep. */
module Store {
  const MAX_HISTORY: nat := 50
  const RESERVED_NAMES: set<string> := {"new"}

  predicate IsNameChar(c: char) { 'a' <= c <= 'z' || '0' <= c <= '9' || c == '_' }

  /** [a-z][a-z0-9_]{1,62} */
  predicate IsReportName(name: string) {
    && 2 <= |name| <= 63 && 'a' <= name[0] <= 'z'
    && forall i | 1 <= i < |name| :: IsNameChar(name[i])
  }

  /** Report names, character by character: a lower-case letter, then one to 62 letters, digits or underscores. */
  lemma ReportNames(name: string, c: char)
    ensures !IsReportName("") && !IsReportName([c])
    ensures name != [] ==>
              (IsReportName(name + [c]) <==>
                && |name| < 63
                && ('a' <= c <= 'z' || '0' <= c <= '9' || c == '_')
                && if |name| == 1 then 'a' <= name[0] <= 'z' else IsReportName(name))
  {
    if name != [] {
      var longer := name + [c];
      assert longer[|name|] == c;
      assert forall i | 0 <= i < |name| :: longer[i] == name[i];
    }
  }

  datatype Snapshot = Snapshot(savedAt: nat, text: string)

  datatype Archived = Archived(name: string, archivedAt: nat, text: string)

  datatype StoreError = Invalid | Reserved | NotConfigured | Conflict

  datatype Outcome = Done | Refused(error: StoreError)

  /** What the environment decides: config validation and the content hash. */
  datatype Checks = Checks(accepts: (string, string) -> bool, version: string -> string)

  ghost predicate Injective(version: string -> string) {
    forall a, b | version(a) == version(b) :: a == b
  }

  /** The newest `n` of a list. */
  function Newest<T>(list: seq<T>, n: nat): seq<T> {
    if |list| <= n then list else list[|list| - n..]
  }

  lemma NewestAfterAppend<T>(list: seq<T>, item: T, n: nat)
    requires n > 0
    ensures Newest(Newest(list, n) + [item], n) == Newest(list + [item], n)
  {
  }

  function Texts(snapshots: seq<Snapshot>): seq<string> {
    seq(|snapshots|, i requires 0 <= i < |snapshots| => snapshots[i].text)
  }

  function Of<T>(lists: map<string, seq<T>>, name: string): seq<T> {
    if name in lists then lists[name] else []
  }

  // --- what every operation keeps ----------------------------------------------------------------

  ghost predicate IsArchived(archived: seq<Archived>, name: string, text: string) {
    exists i | 0 <= i < |archived| :: archived[i].name == name && archived[i].text == text
  }

  /** Some file of the directory holds the text: the live one, one of the history, or one of the archive. */
  ghost predicate OnDisk(files: map<string, string>, snapshots: map<string, seq<Snapshot>>, archived: seq<Archived>,
                         name: string, text: string)
  {
    || (name in files && files[name] == text)
    || text in Texts(Of(snapshots, name))
    || IsArchived(archived, name, text)
  }

  /** Where a text went: it is live or archived, or a save replaced it after the first `since` replacements.
      Replaced texts are only listed here; the history keeps the newest of them. */
  ghost predicate IsTraced(files: map<string, string>, overwritten: map<string, seq<string>>, archived: seq<Archived>,
                           name: string, text: string, since: nat)
  {
    || (name in files && files[name] == text)
    || (since <= |Of(overwritten, name)| && text in Of(overwritten, name)[since..])
    || IsArchived(archived, name, text)
  }

  ghost predicate AllTraced(files: map<string, string>, overwritten: map<string, seq<string>>, archived: seq<Archived>,
                            written: set<(string, string)>)
  {
    forall name, text | (name, text) in written :: IsTraced(files, overwritten, archived, name, text, 0)
  }

  /** Each time the text was replaced, at least MAX_HISTORY later texts of the report were replaced after it. */
  ghost predicate PushedOut(replaced: seq<string>, text: string) {
    && text in replaced
    && forall i | 0 <= i < |replaced| && replaced[i] == text :: |replaced| - 1 - i >= MAX_HISTORY
  }

  /** The history of a report holds the newest MAX_HISTORY texts that saves replaced, in order. */
  ghost predicate HistoryIs(snapshots: map<string, seq<Snapshot>>, overwritten: map<string, seq<string>>) {
    forall name :: Texts(Of(snapshots, name)) == Newest(Of(overwritten, name), MAX_HISTORY)
  }

  ghost predicate InTimeOrder(snapshots: seq<Snapshot>, clock: nat) {
    && (forall i, j | 0 <= i < j < |snapshots| :: snapshots[i].savedAt < snapshots[j].savedAt)
    && (forall i | 0 <= i < |snapshots| :: snapshots[i].savedAt <= clock)
  }

  lemma TracedAfterWrite(files: map<string, string>, overwritten: map<string, seq<string>>, archived: seq<Archived>,
                       written: set<(string, string)>, name: string, text: string)
    requires AllTraced(files, overwritten, archived, written)
    requires name in files ==> files[name] in Of(overwritten, name)
    ensures AllTraced(files[name := text], overwritten, archived, written + {(name, text)})
  {
    forall n, t | (n, t) in written + {(name, text)}
      ensures IsTraced(files[name := text], overwritten, archived, n, t, 0)
    {
      if (n, t) != (name, text) {
        assert IsTraced(files, overwritten, archived, n, t, 0);
      }
    }
  }

  lemma TracedAfterOverwrite(files: map<string, string>, overwritten: map<string, seq<string>>, archived: seq<Archived>,
                           written: set<(string, string)>, name: string, text: string)
    requires AllTraced(files, overwritten, archived, written)
    ensures AllTraced(files, overwritten[name := Of(overwritten, name) + [text]], archived, written)
  {
    forall n, t | (n, t) in written
      ensures IsTraced(files, overwritten[name := Of(overwritten, name) + [text]], archived, n, t, 0)
    {
      assert IsTraced(files, overwritten, archived, n, t, 0);
    }
  }

  lemma TracedAfterArchive(files: map<string, string>, overwritten: map<string, seq<string>>, archived: seq<Archived>,
                         written: set<(string, string)>, name: string, at: nat)
    requires AllTraced(files, overwritten, archived, written) && name in files
    ensures AllTraced(files - {name}, overwritten, archived + [Archived(name, at, files[name])], written)
  {
    var target := Archived(name, at, files[name]);
    var after := archived + [target];
    assert after[|archived|] == target;
    assert forall i | 0 <= i < |archived| :: after[i] == archived[i];
    forall n, t | (n, t) in written ensures IsTraced(files - {name}, overwritten, after, n, t, 0) {
      assert IsTraced(files, overwritten, archived, n, t, 0);
    }
  }

  /** Adding one replaced text and pruning keeps exactly the newest ones. */
  lemma HistoryAfterSnapshot(snapshots: map<string, seq<Snapshot>>, overwritten: map<string, seq<string>>,
                             name: string, snapshot: Snapshot)
    requires HistoryIs(snapshots, overwritten)
    ensures HistoryIs(snapshots[name := Newest(Of(snapshots, name) + [snapshot], MAX_HISTORY)],
                      overwritten[name := Of(overwritten, name) + [snapshot.text]])
  {
    var all := Of(snapshots, name) + [snapshot];
    NewestAfterAppend(Of(overwritten, name), snapshot.text, MAX_HISTORY);
    assert Texts(all) == Texts(Of(snapshots, name)) + [snapshot.text];
    assert Texts(Newest(all, MAX_HISTORY)) == Newest(Texts(all), MAX_HISTORY);
    assert Texts(Of(snapshots, name)) == Newest(Of(overwritten, name), MAX_HISTORY);
    hide Newest, Texts;
    var after, replaced := snapshots[name := Newest(all, MAX_HISTORY)], overwritten[name := Of(overwritten,
        name) + [snapshot.text]];
    forall other ensures Texts(Of(after, other)) == Newest(Of(replaced, other), MAX_HISTORY) {
      if other != name {
        assert Of(after, other) == Of(snapshots, other) && Of(replaced, other) == Of(overwritten, other);
      }
    }
  }

  lemma InNewest(list: seq<string>, n: nat, item: string)
    ensures item in Newest(list, n) <==> exists i :: 0 <= i < |list| && list[i] == item && |list| - 1 - i < n
  {
    var kept := Newest(list, n);
    var from := |list| - |kept|;
    if i :| 0 <= i < |list| && list[i] == item && |list| - 1 - i < n {
      assert kept[i - from] == item;
    }
    if item in kept {
      var k :| 0 <= k < |kept| && kept[k] == item;
      assert list[from + k] == item;
    }
  }

  /** What the files say about a text: the history holds it exactly while fewer than MAX_HISTORY texts of
      the report were replaced after one of its own replacements. */
  lemma OnDiskIffRecent(files: map<string, string>, snapshots: map<string, seq<Snapshot>>,
                        overwritten: map<string, seq<string>>, archived: seq<Archived>, name: string, text: string)
    requires HistoryIs(snapshots, overwritten)
    ensures var replaced := Of(overwritten, name);
            OnDisk(files, snapshots, archived, name, text) <==>
              || (name in files && files[name] == text)
              || IsArchived(archived, name, text)
              || exists i :: 0 <= i < |replaced| && replaced[i] == text && |replaced| - 1 - i < MAX_HISTORY
  {
    InNewest(Of(overwritten, name), MAX_HISTORY, text);
    assert Texts(Of(snapshots, name)) == Newest(Of(overwritten, name), MAX_HISTORY);
    hide Newest, Texts, HistoryIs, IsArchived;
  }

  /** A text that was ever live is on disk unless MAX_HISTORY later texts pushed it out of the history. */
  lemma OnDiskUnlessPushedOut(files: map<string, string>, snapshots: map<string, seq<Snapshot>>,
                              overwritten: map<string, seq<string>>, archived: seq<Archived>, name: string,
                              text: string)
    requires HistoryIs(snapshots, overwritten) && IsTraced(files, overwritten, archived, name, text, 0)
    ensures OnDisk(files, snapshots, archived, name, text) || PushedOut(Of(overwritten, name), text)
  {
    OnDiskIffRecent(files, snapshots, overwritten, archived, name, text);
  }

  /** A text replaced among the last MAX_HISTORY replacements, if at all, is on disk. */
  lemma RecentlyTracedIsOnDisk(files: map<string, string>, snapshots: map<string, seq<Snapshot>>,
                               overwritten: map<string, seq<string>>, archived: seq<Archived>, name: string,
                               text: string, since: nat)
    requires HistoryIs(snapshots, overwritten) && IsTraced(files, overwritten, archived, name, text, since)
    requires |Of(overwritten, name)| <= since + MAX_HISTORY
    ensures OnDisk(files, snapshots, archived, name, text)
  {
    OnDiskIffRecent(files, snapshots, overwritten, archived, name, text);
    var replaced := Of(overwritten, name);
    if since <= |replaced| && text in replaced[since..] {
      var i :| 0 <= i < |replaced[since..]| && replaced[since..][i] == text;
      assert replaced[since + i] == text;
    }
  }

  lemma LaterInTimeOrder(snapshots: map<string, seq<Snapshot>>, clock: nat, later: nat)
    requires clock <= later && forall name :: InTimeOrder(Of(snapshots, name), clock)
    ensures forall name :: InTimeOrder(Of(snapshots, name), later)
  {
    forall name ensures InTimeOrder(Of(snapshots, name), later) {
      assert InTimeOrder(Of(snapshots, name), clock);
    }
  }

  lemma NewestInTimeOrder(snapshots: seq<Snapshot>, clock: nat, snapshot: Snapshot)
    requires InTimeOrder(snapshots, clock) && clock < snapshot.savedAt
    ensures InTimeOrder(Newest(snapshots + [snapshot], MAX_HISTORY), snapshot.savedAt)
  {
  }

  class ConfigStore {
    const checks: Checks
    /** The live <name>.yaml files. */
    var files: map<string, string>
    /** .history/<name>/<timestamp>.yaml, in timestamp order. */
    var snapshots: map<string, seq<Snapshot>>
    /** .archive/<name>-<timestamp>.yaml */
    var archived: seq<Archived>
    /** The .seeded manifest. */
    var seeded: set<string>
    var clock: nat

    /** Every text a save replaced, by report, oldest first. */
    ghost var overwritten: map<string, seq<string>>
    /** Every text that was ever live. */
    ghost var written: set<(string, string)>

    ghost predicate Valid()
      reads this
    {
      && Injective(checks.version)
      && HistoryIs(snapshots, overwritten)
      && (forall name :: InTimeOrder(Of(snapshots, name), clock))
      && (forall name | name in files :: (name, files[name]) in written)
      && AllTraced(files, overwritten, archived, written)
    }

    constructor (checks: Checks)
      requires Injective(checks.version)
      ensures Valid() && this.checks == checks && files == map[] && seeded == {} && archived == []
    {
      this.checks, clock := checks, 0;
      files, snapshots, archived, seeded, overwritten, written := map[], map[], [], {}, map[], {};
    }

    method Now() returns (now: nat)
      modifies this`clock
      ensures now == clock > old(clock)
    {
      now :| now > clock;
      clock := now;
    }

    /** Keep the text that is about to be replaced, and only the newest MAX_HISTORY of them. */
    method TakeSnapshot(name: string, text: string)
      requires Valid() && name in files && files[name] == text
      modifies this`snapshots, this`clock, this`overwritten
      ensures Valid() && overwritten == old(overwritten)[name := Of(old(overwritten), name) + [text]]
      ensures forall other | other != name :: Of(snapshots, other) == Of(old(snapshots), other)
    {
      hide Injective, AllTraced, HistoryIs, Newest, InTimeOrder;
      var now := Now();
      LaterInTimeOrder(snapshots, old(clock), now);
      ghost var before := snapshots;
      var snapshot := Snapshot(now, text);
      HistoryAfterSnapshot(snapshots, overwritten, name, snapshot);
      TracedAfterOverwrite(files, overwritten, archived, written, name, text);
      NewestInTimeOrder(Of(snapshots, name), old(clock), snapshot);
      snapshots := snapshots[name := Newest(Of(snapshots, name) + [snapshot], MAX_HISTORY)];
      overwritten := overwritten[name := Of(overwritten, name) + [text]];
      forall other ensures InTimeOrder(Of(snapshots, other), clock) {
        if other != name {
          assert Of(snapshots, other) == Of(before, other);
        }
      }
    }

    method Write(name: string, text: string)
      requires Valid() && (name in files ==> files[name] in Of(overwritten, name))
      modifies this`files, this`written
      ensures Valid() && files == old(files)[name := text] && written == old(written) + {(name, text)}
    {
      hide Injective, AllTraced, HistoryIs, Newest, InTimeOrder;
      TracedAfterWrite(files, overwritten, archived, written, name, text);
      files := files[name := text];
      written := written + {(name, text)};
    }

    /** Replace the text that was opened; refuse if another one is there by now. */
    method Save(name: string, text: string, baseVersion: string) returns (outcome: Outcome)
      requires Valid()
      modifies this
      ensures Valid() && seeded == old(seeded) && archived == old(archived)
      ensures outcome == if !checks.accepts(name, text) then Refused(Invalid)
                         else if !IsReportName(name) || name !in old(files) then Refused(NotConfigured)
                         else if checks.version(old(files)[name]) != baseVersion then Refused(Conflict)
                         else Done
      ensures outcome.Refused? ==> files == old(files) && snapshots == old(snapshots) && overwritten == old(overwritten)
      ensures outcome.Done? ==>
                && files == old(files)[name := text]
                && overwritten == if old(files)[name] == text then old(overwritten)
                                  else old(overwritten)[name := Of(old(overwritten), name) + [old(files)[name]]]
      ensures outcome.Done? ==> forall base | checks.version(base) == baseVersion :: base == old(files)[name]
      ensures old(written) <= written
    {
      hide HistoryIs, AllTraced, InTimeOrder, Texts, Newest;
      if !checks.accepts(name, text) { return Refused(Invalid); }
      if !IsReportName(name) || name !in files { return Refused(NotConfigured); }
      var current := files[name];
      if checks.version(current) != baseVersion { return Refused(Conflict); }
      outcome := Done;
      if current == text {
        assert files == files[name := text];
        return;
      }
      TakeSnapshot(name, current);
      Write(name, text);
    }

    /** A new report; an existing one is never replaced. */
    method Create(name: string, text: string) returns (outcome: Outcome)
      requires Valid()
      modifies this
      ensures Valid() && seeded == old(seeded) && archived == old(archived)
      ensures snapshots == old(snapshots) && overwritten == old(overwritten)
      ensures outcome == if !IsReportName(name) then Refused(Invalid)
                         else if name == "new" then Refused(Reserved)
                         else if !checks.accepts(name, text) then Refused(Invalid)
                         else if name in old(files) then Refused(Conflict)
                         else Done
      ensures files == if outcome.Done? then old(files)[name := text] else old(files)
      ensures old(written) <= written
    {
      if !IsReportName(name) { return Refused(Invalid); }
      if name in RESERVED_NAMES { return Refused(Reserved); }
      if !checks.accepts(name, text) { return Refused(Invalid); }
      if name in files { return Refused(Conflict); }
      Write(name, text);
      outcome := Done;
    }

    /** Move the file away; nothing is destroyed. */
    method Archive(name: string) returns (outcome: Outcome)
      requires Valid()
      modifies this
      ensures Valid() && seeded == old(seeded) && snapshots == old(snapshots) && overwritten == old(overwritten)
      ensures outcome == if !IsReportName(name) || name !in old(files) then Refused(NotConfigured) else Done
      ensures files == if outcome.Done? then old(files) - {name} else old(files)
      ensures archived == if outcome.Done? then old(archived) + [Archived(name, clock,
          old(files)[name])] else old(archived)
      ensures written == old(written)
    {
      if !IsReportName(name) || name !in files { return Refused(NotConfigured); }
      var now := Now();
      hide Injective, AllTraced, HistoryIs, InTimeOrder;
      LaterInTimeOrder(snapshots, old(clock), now);
      TracedAfterArchive(files, overwritten, archived, written, name, now);
      archived := archived + [Archived(name, now, files[name])];
      files := files - {name};
      outcome := Done;
    }

    /** Add the bundled reports this directory has never had. `order` is the sorted list of their names. */
    method SeedBundled(bundled: map<string, string>, order: seq<string>) returns (added: seq<string>)
      requires Valid() && forall n :: n in order <==> n in bundled
      modifies this
      ensures Valid() && archived == old(archived) && snapshots == old(snapshots) && overwritten == old(overwritten)
      ensures seeded == old(seeded) + bundled.Keys
      ensures forall n :: n in added <==> n in bundled && n !in old(seeded) && n !in old(files)
      ensures forall n :: n in files <==> n in old(files) || n in added
      ensures forall n | n in files :: files[n] == if n in old(files) then old(files)[n] else bundled[n]
      ensures old(written) <= written
    {
      hide Injective, AllTraced, HistoryIs, InTimeOrder;
      added := [];
      var manifest := seeded;
      for i := 0 to |order|
        invariant old(written) <= written
        invariant Valid() && archived == old(archived) && snapshots == old(snapshots) && overwritten == old(overwritten)
        invariant manifest == old(seeded) + set n | n in order[..i]
        invariant forall n :: n in added <==> n in order[..i] && n !in old(seeded) && n !in old(files)
        invariant forall n :: n in files <==> n in old(files) || n in added
        invariant forall n | n in files :: files[n] == if n in old(files) then old(files)[n] else bundled[n]
      {
        var name := order[i];
        assert order[..i + 1] == order[..i] + [name];
        if name !in manifest {
          if name !in files {
            Write(name, bundled[name]);
            added := added + [name];
          }
          manifest := manifest + {name};
        }
      }
      assert order[..|order|] == order;
      seeded := manifest;
    }

    /** Any sequence of operations. A text that was ever live is on disk or was pushed out by MAX_HISTORY later
        ones; a text that was live at the start survives up to MAX_HISTORY saves of its report, whatever else
        happens; archived files only accumulate; and a report that was seeded once stays away unless someone
        creates it. */
    method Apply(operations: seq<Operation>)
      requires Valid() && forall i | 0 <= i < |operations| :: operations[i].IsWellFormed()
      modifies this
      ensures Valid() && old(written) <= written && old(seeded) <= seeded && old(archived) <= archived
      ensures forall name, text | (name, text) in written ::
                OnDisk(files, snapshots, archived, name, text) || PushedOut(Of(overwritten, name), text)
      ensures forall name | name in old(files) && Saves(operations, |operations|, name) <= MAX_HISTORY ::
                OnDisk(files, snapshots, archived, name, old(files)[name])
      ensures forall name | name in old(seeded) && name !in old(files) && !Creates(operations, name) :: name !in files
    {
      hide HistoryIs, AllTraced, InTimeOrder, Injective, OnDisk, PushedOut, IsTraced;
      forall name | name in files
        ensures IsTraced(files, overwritten, archived, name, files[name], |Of(overwritten, name)|)
      {
        LiveIsTraced(files, overwritten, archived, name);
      }
      for i := 0 to |operations|
        invariant Valid() && old(written) <= written && old(seeded) <= seeded && old(archived) <= archived
        invariant forall name :: AtMost(old(overwritten), overwritten, name, Saves(operations, i, name))
        invariant forall name | name in old(files) ::
            IsTraced(files, overwritten, archived, name, old(files)[name], |Of(old(overwritten), name)|)
        invariant forall name | name in old(seeded) && name !in old(files) && !Creates(operations, name) ::
            name !in files
      {
        ghost var f, o, a := files, overwritten, archived;
        ApplyOne(operations, i);
        forall name
          ensures AtMost(old(overwritten), overwritten, name, Saves(operations, i + 1, name))
          ensures name in old(files) ==>
              IsTraced(files, overwritten, archived, name, old(files)[name], |Of(old(overwritten), name)|)
        {
          assert AtMost(old(overwritten), o, name, Saves(operations, i, name));
          assert Stepped(operations[i], f, files, o, overwritten, a, archived, name);
          if name in old(files) {
            StillTraced(operations[i], f, files, o, overwritten, a, archived, name, old(files)[name],
                        |Of(old(overwritten), name)|);
          }
        }
      }
      ForAllTexts();
      forall name | name in old(files) && Saves(operations, |operations|, name) <= MAX_HISTORY
        ensures OnDisk(files, snapshots, archived, name, old(files)[name])
      {
        assert AtMost(old(overwritten), overwritten, name, Saves(operations, |operations|, name));
        RecentlyTracedIsOnDisk(files, snapshots, overwritten, archived, name, old(files)[name],
                               |Of(old(overwritten), name)|);
      }
    }

    lemma ForAllTexts()
      requires Valid()
      ensures forall name, text | (name, text) in written ::
                OnDisk(files, snapshots, archived, name, text) || PushedOut(Of(overwritten, name), text)
    {
      forall name, text | (name, text) in written
        ensures OnDisk(files, snapshots, archived, name, text) || PushedOut(Of(overwritten, name), text)
      {
        OnDiskUnlessPushedOut(files, snapshots, overwritten, archived, name, text);
      }
    }

    method ApplyOne(operations: seq<Operation>, i: nat)
      requires Valid() && i < |operations| && operations[i].IsWellFormed()
      modifies this
      ensures Valid() && old(written) <= written && old(seeded) <= seeded && old(archived) <= archived
      ensures forall name ::
                Stepped(operations[i], old(files), files, old(overwritten), overwritten, old(archived), archived, name)
      ensures forall name | name in old(seeded) && name !in old(files) && !Creates(operations, name) :: name !in files
    {
      hide HistoryIs, AllTraced, InTimeOrder, Injective;
      var outcome, added;
      match operations[i]
      case SaveOp(name, text, baseVersion) => outcome := Save(name, text, baseVersion);
      case CreateOp(name, text) => outcome := Create(name, text);
      case ArchiveOp(name) => outcome := Archive(name);
      case SeedOp(bundled, order) => added := SeedBundled(bundled, order);
    }
  }

  /** What one operation does to a report's live and replaced texts: a live text stays, or is replaced by a save
      of that report and listed, or moves to the archive. */
  ghost predicate Stepped(operation: Operation, files: map<string, string>, files': map<string, string>,
                          overwritten: map<string, seq<string>>, overwritten': map<string, seq<string>>,
                          archived: seq<Archived>, archived': seq<Archived>, name: string)
  {
    && archived <= archived'
    && (|| Of(overwritten', name) == Of(overwritten, name)
        || (operation.SaveOp? && operation.name == name && name in files
            && Of(overwritten', name) == Of(overwritten, name) + [files[name]]))
    && (name in files ==>
          || (name in files' && files'[name] == files[name])
          || Of(overwritten', name) == Of(overwritten, name) + [files[name]]
          || (archived < archived' && archived'[|archived|].name == name && archived'[|archived|].text == files[name]))
  }

  /** `after` adds at most n texts to what `before` lists for the report. */
  ghost predicate AtMost(before: map<string, seq<string>>, after: map<string, seq<string>>, name: string, n: nat) {
    |Of(before, name)| <= |Of(after, name)| <= |Of(before, name)| + n
  }

  lemma LiveIsTraced(files: map<string, string>, overwritten: map<string, seq<string>>, archived: seq<Archived>,
                     name: string)
    requires name in files
    ensures IsTraced(files, overwritten, archived, name, files[name], |Of(overwritten, name)|)
  {
  }

  /** A text stays traced when its file is left alone, when it is replaced and listed, and when it is archived. */
  lemma StillTraced(operation: Operation, files: map<string, string>, files': map<string, string>,
                    overwritten: map<string, seq<string>>, overwritten': map<string, seq<string>>,
                    archived: seq<Archived>, archived': seq<Archived>, name: string, text: string, since: nat)
    requires IsTraced(files, overwritten, archived, name, text, since) && since <= |Of(overwritten, name)|
    requires Stepped(operation, files, files', overwritten, overwritten', archived, archived', name)
    ensures IsTraced(files', overwritten', archived', name, text, since)
  {
    var was, now := Of(overwritten, name), Of(overwritten', name);
    if IsArchived(archived, name, text) {
      var i :| 0 <= i < |archived| && archived[i].name == name && archived[i].text == text;
      assert archived'[i] == archived[i];
    } else if text in was[since..] {
      var i :| 0 <= i < |was[since..]| && was[since..][i] == text;
      assert now[since..][i] == text;
    } else if now == was + [text] {
      assert now[since..][|was| - since] == text;
    }
  }

  /** How many of the first n operations are saves of the report, accepted or not. */
  function Saves(operations: seq<Operation>, n: nat, name: string): nat
    requires n <= |operations|
  {
    if n == 0 then 0
    else
      var last := operations[n - 1];
      Saves(operations, n - 1, name) + if last.SaveOp? && last.name == name then 1 else 0
  }

  /** Saving one text after the other, each on top of the last: the first text is on disk afterwards exactly
      when there were at most MAX_HISTORY saves. */
  method SaveEach(store: ConfigStore, name: string, texts: seq<string>)
    requires store.Valid() && IsReportName(name) && name in store.files
    requires forall i | 0 <= i < |texts| :: store.checks.accepts(name, texts[i])
    requires forall i, j | 0 <= i < j < |texts| :: texts[i] != texts[j]
    requires store.files[name] !in texts && store.files[name] !in Texts(Of(store.snapshots, name))
    requires !IsArchived(store.archived, name, store.files[name])
    modifies store
    ensures store.Valid() && name in store.files
    ensures store.files[name] == ([old(store.files[name])] + texts)[|texts|]
    ensures OnDisk(store.files, store.snapshots, store.archived, name, old(store.files[name])) <==>
            |texts| <= 50
  {
    hide HistoryIs, AllTraced, InTimeOrder, Injective, OnDisk, IsArchived;
    ghost var first, was := store.files[name], Of(store.overwritten, name);
    ghost var all := [first] + texts;
    FirstReplacement(store.snapshots, store.overwritten, name, first);
    for i := 0 to |texts|
      invariant store.Valid() && store.archived == old(store.archived)
      invariant name in store.files && store.files[name] == all[i]
      invariant Of(store.overwritten, name) == was + all[..i]
    {
      var outcome := store.Save(name, texts[i], store.checks.version(store.files[name]));
      assert all[..i + 1] == all[..i] + [all[i]];
    }
    OnDiskIffRecent(store.files, store.snapshots, store.overwritten, store.archived, name, first);
    if texts != [] {
      assert (was + all[..|texts|])[|was|] == first;
    }
  }

  /** A text the history does not hold was replaced long ago, if ever. */
  lemma FirstReplacement(snapshots: map<string, seq<Snapshot>>, overwritten: map<string, seq<string>>, name: string,
                         text: string)
    requires HistoryIs(snapshots, overwritten) && text !in Texts(Of(snapshots, name))
    ensures var was := Of(overwritten, name);
            forall i | 0 <= i < |was| && was[i] == text :: |was| - 1 - i >= MAX_HISTORY
  {
    InNewest(Of(overwritten, name), MAX_HISTORY, text);
    assert Texts(Of(snapshots, name)) == Newest(Of(overwritten, name), MAX_HISTORY);
  }

  datatype Operation =
    | SaveOp(name: string, text: string, baseVersion: string)
    | CreateOp(name: string, text: string)
    | ArchiveOp(name: string)
    | SeedOp(bundled: map<string, string>, order: seq<string>)
  {
    predicate IsWellFormed() {
      SeedOp? ==> (forall n | n in order :: n in bundled) && (forall n | n in bundled :: n in order)
    }
  }

  predicate Creates(operations: seq<Operation>, name: string) {
    exists i | 0 <= i < |operations| :: operations[i].CreateOp? && operations[i].name == name
  }
}
