/** The token file: `save` as a sequence of file-system calls, and what a crash can leave.

    The file system is adversarial. A directory entry changed since the directory was last synced
    may be found in any of its states, each name on its own; a file not synced may hold
    anything; a directory that was only just created may be gone. */
module TokenFile {
  import opened Wrappers
  import opened Tokens

  /** A complete token file, or bytes that do not parse. */
  datatype Contents = Json(tokens: Tokens) | Garbage

  datatype IoError = NotFound

  datatype Inode = Inode(contents: Contents, synced: bool)

  datatype Dir = Missing | New | Durable

  type Entry = Option<nat>

  /** `path` and `tmp` are the entries as running programs see them, `pathMaybe` and `tmpMaybe`
      what a crash may leave of them. */
  datatype Disk = Disk(
    dir: Dir,
    inodes: map<nat, Inode>,
    next: nat,
    path: Entry,
    tmp: Entry,
    pathMaybe: set<Entry>,
    tmpMaybe: set<Entry>)

  datatype Call = CreateDirAll | RemoveTmp | CreateNewTmp | WriteAll(tokens: Tokens) | SyncFile | Rename | SyncDir

  // ---- the calls ----

  function SetInode(d: Disk, n: nat, inode: Inode): Disk {
    d.(inodes := d.inodes[n := inode])
  }

  /** One call; `fault` makes it fail. A failed write may leave part of the data. */
  function Exec(d: Disk, call: Call, fault: bool): (Disk, bool) {
    match call
    case CreateDirAll =>
      if fault then (d, false) else (if d.dir.Missing? then d.(dir := New) else d, true)
    case RemoveTmp =>
      if fault then (d, false) else (d.(tmp := None, tmpMaybe := d.tmpMaybe + {None}), true)
    case CreateNewTmp =>
      if fault || d.tmp.Some? then (d, false)
      else
        (SetInode(d, d.next, Inode(Garbage, false)).(
           next := d.next + 1, tmp := Some(d.next), tmpMaybe := d.tmpMaybe + {Some(d.next)}),
         true)
    case WriteAll(tokens) =>
      if d.tmp.None? then (d, false)
      else (SetInode(d, d.tmp.value, Inode(if fault then Garbage else Json(tokens), false)), !fault)
    case SyncFile =>
      if fault || d.tmp.None? || d.tmp.value !in d.inodes then (d, false)
      else (SetInode(d, d.tmp.value, d.inodes[d.tmp.value].(synced := true)), true)
    case Rename =>
      if fault || d.tmp.None? then (d, false)
      else
        (d.(path := d.tmp, pathMaybe := d.pathMaybe + {d.tmp}, tmp := None, tmpMaybe := d.tmpMaybe + {None}),
         true)
    case SyncDir =>
      if fault then (d, false) else (d.(pathMaybe := {d.path}, tmpMaybe := {d.tmp}), true)
  }

  function SaveCalls(tokens: Tokens): seq<Call> {
    [CreateDirAll, RemoveTmp, CreateNewTmp, WriteAll(tokens), SyncFile, Rename, SyncDir]
  }

  /** Runs the k-th call up to the one before the n-th, until one fails. */
  function Run(d: Disk, calls: seq<Call>, faults: seq<bool>, k: nat, n: nat): (Disk, bool)
    requires k <= n <= |calls| && n <= |faults|
    decreases n - k
  {
    if k == n then (d, true)
    else
      var (d1, ok) := Exec(d, calls[k], faults[k]);
      if ok then Run(d1, calls, faults, k + 1, n) else (d1, false)
  }

  predicate NoFault(faults: seq<bool>, n: nat)
    requires n <= |faults|
  {
    forall i | 0 <= i < n :: !faults[i]
  }

  /** `save`, cut short after n calls. */
  function SaveUpTo(d: Disk, tokens: Tokens, faults: seq<bool>, n: nat): (Disk, bool)
    requires n <= 7 && |faults| == 7
  {
    Run(d, SaveCalls(tokens), faults, 0, n)
  }

  /** What is under the path, if anything. */
  function FileAt(d: Disk): Option<Contents> {
    if d.dir.Missing? || d.path.None? || d.path.value !in d.inodes then None
    else Some(d.inodes[d.path.value].contents)
  }

  /** What reading and parsing it amounts to. */
  function Read(d: Disk): Result<Option<Tokens>, ()> {
    match FileAt(d)
    case None => Ok(None)
    case Some(Json(tokens)) => Ok(Some(tokens))
    case Some(Garbage) => Err(())
  }

  /** `after` is what may be found when the machine comes back. */
  ghost predicate CrashOf(d: Disk, after: Disk) {
    && (if d.dir.New? then after.dir.Missing? || after.dir.Durable? else after.dir == d.dir)
    && (if after.dir.Durable? then after.path in d.pathMaybe && after.tmp in d.tmpMaybe
        else after.path == None && after.tmp == None)
    && after.pathMaybe == {after.path} && after.tmpMaybe == {after.tmp}
    && after.next == d.next
    && after.inodes.Keys == d.inodes.Keys
    && (forall n | n in d.inodes ::
          && after.inodes[n].synced
          && (d.inodes[n].synced ==> after.inodes[n].contents == d.inodes[n].contents))
  }

  /** The program in place of the functions: the calls change the disk it runs on. */
  class FileSystem {
    var disk: Disk

    constructor (disk: Disk)
      ensures this.disk == disk
    {
      this.disk := disk;
    }

    method ReadFile() returns (r: Result<Contents, IoError>)
      ensures r == match FileAt(disk) case Some(contents) => Ok(contents) case None => Err(NotFound)
    {
      if disk.dir.Missing? || disk.path.None? || disk.path.value !in disk.inodes {
        return Err(NotFound);
      }
      r := Ok(disk.inodes[disk.path.value].contents);
    }

    method Do(call: Call, fault: bool) returns (ok: bool)
      modifies this
      ensures (disk, ok) == Exec(old(disk), call, fault)
    {
      var (d, succeeded) := Exec(disk, call, fault);
      disk, ok := d, succeeded;
    }
  }

  class TokenStore {
    const fs: FileSystem

    constructor (fs: FileSystem)
      ensures this.fs == fs
    {
      this.fs := fs;
    }

    /** No file is no tokens; a file is read whole and must parse. */
    method Load() returns (r: Result<Option<Tokens>, ()>)
      ensures FileAt(fs.disk) == None ==> r == Ok(None)
      ensures forall tokens | FileAt(fs.disk) == Some(Json(tokens)) :: r == Ok(Some(tokens))
      ensures FileAt(fs.disk) == Some(Garbage) ==> r == Err(())
    {
      var file := fs.ReadFile();
      match file
      case Err(NotFound) => r := Ok(None);
      case Ok(contents) =>
        match contents
        case Json(tokens) => r := Ok(Some(tokens));
        case Garbage => r := Err(());
    }

    method Save(tokens: Tokens, faults: seq<bool>) returns (ok: bool)
      requires |faults| == 7
      modifies fs
      ensures (fs.disk, ok) == SaveUpTo(old(fs.disk), tokens, faults, 7)
    {
      ghost var start, calls := fs.disk, SaveCalls(tokens);
      ok := fs.Do(CreateDirAll, faults[0]);
      if !ok { return; }
      ok := fs.Do(RemoveTmp, faults[1]);
      if !ok { return; }
      ok := fs.Do(CreateNewTmp, faults[2]);
      if !ok { return; }
      ok := fs.Do(WriteAll(tokens), faults[3]);
      if !ok { return; }
      ok := fs.Do(SyncFile, faults[4]);
      if !ok { return; }
      ok := fs.Do(Rename, faults[5]);
      if !ok { return; }
      ok := fs.Do(SyncDir, faults[6]);
    }
  }

  // ---- what a crash can leave at any moment ----

  predicate EntryOk(d: Disk, e: Entry, allowed: set<Option<Tokens>>) {
    match e
    case None => None in allowed
    case Some(n) =>
      && n in d.inodes && d.inodes[n].synced && d.inodes[n].contents.Json?
      && Some(d.inodes[n].contents.tokens) in allowed
  }

  /** Whatever a crash leaves, the file will hold one of the allowed values. */
  predicate Good(d: Disk, allowed: set<Option<Tokens>>) {
    && (forall e | e in d.pathMaybe :: EntryOk(d, e, allowed))
    && d.path in d.pathMaybe
    && d.tmp in d.tmpMaybe
    && (forall n | n in d.inodes :: n < d.next)
    && (forall e: Entry | e in d.tmpMaybe && e.Some? :: e.value in d.inodes)
    && (!d.dir.Durable? ==> None in allowed)
    && (d.dir.Missing? ==> d.path == None && d.tmp == None && d.pathMaybe == {None} && d.tmpMaybe == {None})
  }

  /** The file being written is not one that the path may lead to. */
  predicate Writing(d: Disk, allowed: set<Option<Tokens>>) {
    Good(d, allowed) && !d.dir.Missing? && d.tmp.Some? && d.tmp !in d.pathMaybe
  }

  predicate Written(d: Disk, tokens: Tokens, allowed: set<Option<Tokens>>) {
    Writing(d, allowed) && d.inodes[d.tmp.value].contents == Json(tokens)
  }

  predicate Renamed(d: Disk, tokens: Tokens, allowed: set<Option<Tokens>>) {
    && Good(d, allowed + {Some(tokens)}) && !d.dir.Missing?
    && d.path.Some? && d.inodes[d.path.value] == Inode(Json(tokens), true)
  }

  function Certain(d: Disk, tokens: Tokens): set<Option<Tokens>> {
    {Some(tokens)} + (if d.dir.Durable? then {} else {None})
  }

  /** What holds after the first k calls. */
  predicate Stage(d: Disk, k: nat, tokens: Tokens, allowed: set<Option<Tokens>>) {
    match k
    case 0 => Good(d, allowed)
    case 1 => Good(d, allowed) && !d.dir.Missing?
    case 2 => Good(d, allowed) && !d.dir.Missing? && d.tmp == None
    case 3 => Writing(d, allowed)
    case 4 => Written(d, tokens, allowed)
    case 5 => Written(d, tokens, allowed) && d.inodes[d.tmp.value].synced
    case 6 => Renamed(d, tokens, allowed)
    case _ => Good(d, Certain(d, tokens))
  }

  lemma AllowMore(d: Disk, allowed: set<Option<Tokens>>, more: set<Option<Tokens>>)
    requires Good(d, allowed) && allowed <= more
    ensures Good(d, more)
  {
  }

  /** One call of `save`: it succeeds unless it is made to fail, takes the disk to the next stage,
      and whether or not it succeeds leaves nothing but allowed values behind. */
  lemma CallAdvances(d: Disk, k: nat, tokens: Tokens, allowed: set<Option<Tokens>>, fault: bool)
    requires k < 7 && Stage(d, k, tokens, allowed)
    ensures var (d', ok) := Exec(d, SaveCalls(tokens)[k], fault);
            && ok == !fault
            && (ok ==> Stage(d', k + 1, tokens, allowed))
            && Good(d', allowed + {Some(tokens)})
            && (k < 5 ==> Good(d', allowed))
            && (d.dir.Durable? ==> d'.dir.Durable?)
            && (!d.dir.Durable? ==> !d'.dir.Durable?)
  {
    var (d', ok) := Exec(d, SaveCalls(tokens)[k], fault);
    if k < 6 {
      AllowMore(d, allowed, allowed + {Some(tokens)});
    }
    if k == 2 && ok {
      assert Some(d.next) in d.pathMaybe ==> EntryOk(d, Some(d.next), allowed);
    } else if k < 2 {
      forall e | e in d'.pathMaybe ensures EntryOk(d', e, allowed) {
        assert EntryOk(d, e, allowed);
      }
    } else if k == 5 && ok {
      forall e | e in d'.pathMaybe ensures EntryOk(d', e, allowed + {Some(tokens)}) {
        assert e in d.pathMaybe ==> EntryOk(d, e, allowed);
      }
    } else if k == 6 && ok {
      assert EntryOk(d', d'.path, Certain(d', tokens));
    }
    if Good(d', allowed) {
      AllowMore(d', allowed, allowed + {Some(tokens)});
    }
  }

  lemma {:induction false} PrefixStage(d: Disk, k: nat, n: nat, tokens: Tokens, faults: seq<bool>,
                                       allowed: set<Option<Tokens>>)
    requires k <= n <= 7 && |faults| == 7 && Stage(d, k, tokens, allowed) && Good(d, allowed + {Some(tokens)})
    ensures var (d', ok) := Run(d, SaveCalls(tokens), faults, k, n);
            Good(d', allowed + {Some(tokens)}) && (ok ==> Stage(d', n, tokens, allowed))
    decreases n - k
  {
    if k < n {
      var (d', ok) := Exec(d, SaveCalls(tokens)[k], faults[k]);
      CallAdvances(d, k, tokens, allowed, faults[k]);
      RunStep(d, SaveCalls(tokens), faults, k, n);
      if ok {
        PrefixStage(d', k + 1, n, tokens, faults, allowed);
      }
    }
  }

  lemma {:induction false} PrefixOutcome(d: Disk, k: nat, n: nat, tokens: Tokens, faults: seq<bool>,
                                         allowed: set<Option<Tokens>>)
    requires k <= n <= 7 && |faults| == 7 && Stage(d, k, tokens, allowed)
    ensures var (d', ok) := Run(d, SaveCalls(tokens), faults, k, n);
            && (ok <==> forall i | k <= i < n :: !faults[i])
            && (d'.dir.Durable? <==> d.dir.Durable?)
    decreases n - k
  {
    if k < n {
      var (d', ok) := Exec(d, SaveCalls(tokens)[k], faults[k]);
      CallAdvances(d, k, tokens, allowed, faults[k]);
      RunStep(d, SaveCalls(tokens), faults, k, n);
      if ok {
        PrefixOutcome(d', k + 1, n, tokens, faults, allowed);
      }
    }
  }

  lemma PrefixAdvances(d: Disk, k: nat, n: nat, tokens: Tokens, faults: seq<bool>, allowed: set<Option<Tokens>>)
    requires k <= n <= 7 && |faults| == 7 && Stage(d, k, tokens, allowed) && Good(d, allowed + {Some(tokens)})
    ensures var (d', ok) := Run(d, SaveCalls(tokens), faults, k, n);
            && Good(d', allowed + {Some(tokens)})
            && (ok ==> Stage(d', n, tokens, allowed))
            && (ok <==> forall i | k <= i < n :: !faults[i])
            && (d'.dir.Durable? <==> d.dir.Durable?)
  {
    PrefixStage(d, k, n, tokens, faults, allowed);
    PrefixOutcome(d, k, n, tokens, faults, allowed);
  }

  lemma RunStep(d: Disk, calls: seq<Call>, faults: seq<bool>, k: nat, n: nat)
    requires k < n <= |calls| && n <= |faults|
    ensures var (d1, ok) := Exec(d, calls[k], faults[k]);
            Run(d, calls, faults, k, n) == if ok then Run(d1, calls, faults, k + 1, n) else (d1, false)
  {
  }

  /** Crash atomicity: wherever `save` is cut short, and whatever of its unsynced effects
      survives, the next `load` finds a value allowed before or exactly the new one, complete;
      the running program does too at that point; and what it finds after the crash is then on
      disk for good. */
  lemma CrashAtomic(d: Disk, n: nat, tokens: Tokens, faults: seq<bool>, allowed: set<Option<Tokens>>, after: Disk)
    requires Good(d, allowed) && n <= 7 && |faults| == 7
    requires CrashOf(SaveUpTo(d, tokens, faults, n).0, after)
    ensures var cut := SaveUpTo(d, tokens, faults, n).0;
            && Read(cut).Ok? && Read(cut).value in allowed + {Some(tokens)}
            && Read(after).Ok? && Read(after).value in allowed + {Some(tokens)}
            && Good(after, {Read(after).value} + (if after.dir.Durable? then {} else {None}))
  {
    AllowMore(d, allowed, allowed + {Some(tokens)});
    PrefixAdvances(d, 0, n, tokens, faults, allowed);
    var cut := SaveUpTo(d, tokens, faults, n).0;
  }

  /** A save succeeds unless a call is made to fail, whatever a crash left behind before it. Once it
      has succeeded `load` returns the new tokens, and after any crash it still does exactly when
      the directory was durable to begin with: `save` never syncs the parent of a directory it
      creates. */
  lemma SavedIsDurable(d: Disk, tokens: Tokens, faults: seq<bool>, allowed: set<Option<Tokens>>)
    requires Good(d, allowed) && |faults| == 7
    ensures var (d', ok) := SaveUpTo(d, tokens, faults, 7);
            && (ok <==> NoFault(faults, 7))
            && (ok ==> Good(d', Certain(d', tokens)))
            && (ok ==> Read(d') == Ok(Some(tokens)))
            && (ok ==> ((forall after | CrashOf(d', after) :: Read(after) == Ok(Some(tokens))) <==> d.dir.Durable?))
  {
    AllowMore(d, allowed, allowed + {Some(tokens)});
    PrefixAdvances(d, 0, 7, tokens, faults, allowed);
    var (d', ok) := SaveUpTo(d, tokens, faults, 7);
    if ok {
      SavedReadsBack(d, tokens, faults, allowed);
      if !d.dir.Durable? {
        var after := LostDirectory(d');
        assert CrashOf(d', after) && Read(after) == Ok(None);
      }
    }
  }

  lemma SavedReadsBack(d: Disk, tokens: Tokens, faults: seq<bool>, allowed: set<Option<Tokens>>)
    requires Good(d, allowed) && |faults| == 7 && SaveUpTo(d, tokens, faults, 7).1
    ensures var d' := SaveUpTo(d, tokens, faults, 7).0;
            Read(d') == Ok(Some(tokens)) && !d'.dir.Missing?
  {
  }

  lemma {:induction false} RunKeepsReading(d: Disk, k: nat, tokens: Tokens, faults: seq<bool>,
                                           allowed: set<Option<Tokens>>)
    requires k <= 7 && |faults| == 7 && Stage(d, k, tokens, allowed)
    ensures Read(Run(d, SaveCalls(tokens), faults, k, 7).0) in {Read(d), Ok(Some(tokens))}
    decreases 7 - k
  {
    if k < 7 {
      CallAdvances(d, k, tokens, allowed, faults[k]);
      if !faults[k] {
        RunKeepsReading(Exec(d, SaveCalls(tokens)[k], faults[k]).0, k + 1, tokens, faults, allowed);
      }
    }
  }

  /** To the running program a save changes the file to the new tokens or not at all, and if it
      reports success, to the new tokens. The next save finds everything in order either way. */
  lemma SaveIsAtomic(d: Disk, tokens: Tokens, faults: seq<bool>, allowed: set<Option<Tokens>>)
    requires Good(d, allowed) && |faults| == 7
    ensures var (d', ok) := SaveUpTo(d, tokens, faults, 7);
            && Read(d') in {Read(d), Ok(Some(tokens))}
            && (ok ==> Read(d') == Ok(Some(tokens)))
            && Good(d', allowed + {Some(tokens)})
  {
    AllowMore(d, allowed, allowed + {Some(tokens)});
    PrefixAdvances(d, 0, 7, tokens, faults, allowed);
    RunKeepsReading(d, 0, tokens, faults, allowed);
    if SaveUpTo(d, tokens, faults, 7).1 {
      SavedReadsBack(d, tokens, faults, allowed);
    }
  }

  lemma {:induction false} RunSplit(d: Disk, calls: seq<Call>, faults: seq<bool>, k: nat, m: nat, n: nat)
    requires k <= m <= n <= |calls| && n <= |faults|
    ensures var (d1, ok) := Run(d, calls, faults, k, m);
            Run(d, calls, faults, k, n) == if ok then Run(d1, calls, faults, m, n) else (d1, false)
    decreases m - k
  {
    if k < m {
      var (d1, ok) := Exec(d, calls[k], faults[k]);
      if ok {
        RunSplit(d1, calls, faults, k + 1, m, n);
      }
    }
  }

  /** A crash that takes a directory whose own entry was never synced. */
  function LostDirectory(d: Disk): Disk {
    d.(dir := Missing, path := None, tmp := None, pathMaybe := {None}, tmpMaybe := {None},
       inodes := map n | n in d.inodes :: d.inodes[n].(synced := true))
  }

  // ---- many saves and many crashes ----

  /** A save cut short after `calls` calls, or run to its end when `calls` is 7; or a crash. */
  datatype Event = SaveAttempt(calls: nat, tokens: Tokens, faults: seq<bool>) | Crash(after: Disk)

  ghost predicate Happens(d: Disk, event: Event) {
    match event
    case SaveAttempt(calls, _, faults) => calls <= 7 && |faults| == 7
    case Crash(after) => CrashOf(d, after)
  }

  function Then(d: Disk, event: Event): Disk
    requires event.SaveAttempt? ==> event.calls <= 7 && |event.faults| == 7
  {
    match event
    case SaveAttempt(calls, tokens, faults) => SaveUpTo(d, tokens, faults, calls).0
    case Crash(after) => after
  }

  /** What the file may hold: a completed save settles it, an attempt adds its tokens. */
  function Settled(d: Disk, event: Event, allowed: set<Option<Tokens>>): set<Option<Tokens>>
    requires event.SaveAttempt? ==> event.calls <= 7 && |event.faults| == 7
  {
    match event
    case SaveAttempt(calls, tokens, faults) =>
      if calls == 7 && SaveUpTo(d, tokens, faults, 7).1 then Certain(Then(d, event), tokens)
      else allowed + {Some(tokens)}
    case Crash(_) => allowed
  }

  ghost predicate History(d: Disk, events: seq<Event>, allowed: set<Option<Tokens>>, end: Disk,
                          final: set<Option<Tokens>>)
    decreases |events|
  {
    if events == [] then end == d && final == allowed
    else
      && Happens(d, events[0])
      && History(Then(d, events[0]), events[1..], Settled(d, events[0], allowed), end, final)
  }

  lemma EventKeepsGood(d: Disk, event: Event, allowed: set<Option<Tokens>>)
    requires Good(d, allowed) && Happens(d, event)
    ensures Good(Then(d, event), Settled(d, event, allowed))
  {
    match event
    case SaveAttempt(calls, tokens, faults) =>
      AllowMore(d, allowed, allowed + {Some(tokens)});
      PrefixAdvances(d, 0, calls, tokens, faults, allowed);
      if calls == 7 {
        SavedIsDurable(d, tokens, faults, allowed);
      }
    case Crash(after) =>
      var settled := {Read(after).value} + (if after.dir.Durable? then {} else {None});
      AllowMore(after, settled, allowed);
  }

  /** Through any history of saves, failures and crashes, `load` never fails and returns what the
      last completed save wrote or what a save attempted since would have written. */
  lemma {:induction false} FileAlwaysReadable(d: Disk, events: seq<Event>, allowed: set<Option<Tokens>>,
                                              end: Disk, final: set<Option<Tokens>>)
    requires Good(d, allowed) && History(d, events, allowed, end, final)
    ensures Good(end, final) && Read(end).Ok? && Read(end).value in final
    decreases |events|
  {
    if events != [] {
      EventKeepsGood(d, events[0], allowed);
      FileAlwaysReadable(Then(d, events[0]), events[1..], Settled(d, events[0], allowed), end, final);
    }
  }

  function WithoutSync(tokens: Tokens): seq<Call> {
    [CreateDirAll, RemoveTmp, CreateNewTmp, WriteAll(tokens), Rename, SyncDir]
  }

  /** Every file that was not synced comes back as garbage. */
  function WorstCrash(d: Disk): Disk {
    d.(inodes := map n | n in d.inodes ::
         Inode(if d.inodes[n].synced then d.inodes[n].contents else Garbage, true))
  }

  /** Why the file is synced before the rename: without that one call, on any durable disk, a
      crash after the whole save can leave a file that `load` cannot read. */
  lemma UnsyncedRenameIsUnsafe(d: Disk, tokens: Tokens)
    requires d.dir.Durable?
    ensures var (d', ok) := Run(d, WithoutSync(tokens), seq(6, i => false), 0, 6);
            ok && CrashOf(d', WorstCrash(d')) && Read(WorstCrash(d')) == Err(())
  {
  }
}
