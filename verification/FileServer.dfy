/** Trees, opens and the operations that change files (src/smb2/handlers.rs): the
    read-only discipline of trees, and the lease breaks each change causes. The file
    system is names, inodes and a version per file; the kernel's failures are parameters.
 */
module FileServer {
  import opened Wire
  import opened Lease

  type Path = string
  type Ino = nat

  // ------------------------------------------------------- the file system

  /** `version` counts changes of a file's data. */
  datatype Node = Node(isDir: bool, canWrite: bool, version: nat)

  datatype Fs = Fs(names: map<Path, Ino>, nodes: map<Ino, Node>) {
    predicate Exists(p: Path) { p in names }

    predicate IsDir(p: Path) { p in names && names[p] in nodes && nodes[names[p]].isDir }

    function Touched(i: Ino): Fs {
      if i in nodes then this.(nodes := nodes[i := nodes[i].(version := nodes[i].version + 1)]) else this
    }

    function Made(p: Path, i: Ino, n: Node): Fs { Fs(names[p := i], nodes[i := n]) }

    function Unlinked(p: Path): Fs { this.(names := names - {p}) }

    function Renamed(from: Path, to: Path): Fs
      requires from in names
    {
      if to in names && names[to] == names[from] then this  // two names of one file: nothing happens
      else this.(names := (names - {from})[to := names[from]])
    }
  }

  datatype Flags = Flags(creat: bool, excl: bool, trunc: bool, rdwr: bool)

  datatype OpenRes = Opened(fs: Fs, ino: Ino) | Eacces | Failed

  /** open(2) on a path: `ok` is whether the kernel lets it happen otherwise. */
  function OpenAt(fs: Fs, p: Path, f: Flags, newIno: Ino, ok: bool): OpenRes {
    if !fs.Exists(p) then
      if f.creat && ok then Opened(fs.Made(p, newIno, Node(false, true, 0)), newIno) else Failed
    else if f.excl || !ok || (fs.IsDir(p) && (f.rdwr || f.trunc)) then Failed
    else if (f.rdwr || f.trunc) && !(fs.names[p] in fs.nodes && fs.nodes[fs.names[p]].canWrite) then Eacces
    else Opened(if f.trunc then fs.Touched(fs.names[p]) else fs, fs.names[p])
  }

  // ------------------------------------------------------------- leases

  /** The table after a conflicting access: only the actor's own lease key is spared. */
  function Broken(t: Table, k: FileKey, except: Option<LeaseKey>): Table {
    Store(t, k, Kept(Grants(t, k), Exempting(except)))
  }

  /** Every grant left on the file carries the actor's lease key. */
  ghost predicate OnlyActor(t: Table, k: FileKey, actor: Option<LeaseKey>) {
    forall g :: g in Grants(t, k) ==> actor == Some(g.leaseKey)
  }

  lemma BrokenOnly(t: Table, k: FileKey, except: Option<LeaseKey>)
    requires WellFormed(t)
    ensures WellFormed(Broken(t, k, except)) && OnlyActor(Broken(t, k, except), k, except)
    ensures forall k' :: k' != k ==> Grants(Broken(t, k, except), k') == Grants(t, k')
    ensures forall k' :: OnlyActor(t, k', except) ==> OnlyActor(Broken(t, k, except), k', except)
  {
    KeptDistinct(Grants(t, k), Exempting(except));
  }

  function Granted(t: Table, k: FileKey, g: Grant): Table
    requires WellFormed(t)
  {
    Store(t, k, Put(Grants(t, k), g))
  }

  function Released(t: Table, k: FileKey, lk: LeaseKey): Table {
    Store(t, k, Kept(Grants(t, k), Releasing(lk)))
  }

  // -------------------------------------------------------- trees and opens

  datatype Tree = Tree(share: nat, ipc: bool, readOnly: bool)

  /** `ino` is the file the descriptor is open on; `path` the name it was opened or last
      renamed under. */
  datatype Open = Open(
    tree: nat, share: nat, ino: Ino, path: Path, root: bool, isDir: bool, writable: bool, deleteOnClose: bool,
    leaseKey: Option<LeaseKey>, leased: bool, handleCaching: bool)

  /** An open that may change files was made on a live tree that is not read-only. */
  ghost predicate Disciplined(trees: map<nat, Tree>, handles: map<nat, Open>) {
    forall h :: h in handles ==> handles[h].tree in trees && Suits(trees[handles[h].tree], handles[h])
  }

  predicate Suits(t: Tree, o: Open) {
    !t.ipc && t.share == o.share && (o.writable || o.deleteOnClose ==> !t.readOnly)
  }

  datatype Status =
    | Success | AccessDenied | FileClosed | NetworkNameDeleted | InsufficientResources | NameCollision | NameNotFound
    | IsADirectory | NotADirectory | NotEmpty | NotSupported | IoError

  // --------------------------------------------------------------- CREATE

  const FILE_SUPERSEDE := 0
  const FILE_OPEN := 1
  const FILE_CREATE := 2
  const FILE_OPEN_IF := 3
  const FILE_OVERWRITE := 4
  const FILE_OVERWRITE_IF := 5

  /** `denied`: the desired access names something a read-only tree refuses. */
  datatype CreateReq = CreateReq(
    path: Path, root: bool, wantsWrite: bool, denied: bool, maxAllowed: bool, disposition: nat,
    deleteOnClose: bool, dirRequested: bool, nonDir: bool, lease: Option<Grant>)
  {
    /** The access bits that write are among those a read-only tree refuses. */
    predicate Typed() { wantsWrite ==> denied }

    predicate Creates() {
      || disposition == FILE_SUPERSEDE || disposition == FILE_CREATE
      || disposition == FILE_OVERWRITE || disposition == FILE_OVERWRITE_IF
    }

    function Key(): Option<LeaseKey> { if lease.Some? then Some(lease.value.leaseKey) else None }
  }

  /** The refusals before anything is opened. */
  function Refusal(fs: Fs, t: Tree, r: CreateReq): Option<Status> {
    if t.readOnly && (r.denied || r.Creates() || r.deleteOnClose) then Some(AccessDenied)
    else if t.readOnly && !fs.Exists(r.path) && r.disposition == FILE_OPEN_IF then Some(AccessDenied)
    else if r.deleteOnClose && r.root then Some(AccessDenied)
    else if fs.Exists(r.path) && r.disposition == FILE_CREATE then Some(NameCollision)
    else if !fs.Exists(r.path) && (r.disposition == FILE_OPEN || r.disposition == FILE_OVERWRITE) then Some(NameNotFound)
    else if fs.IsDir(r.path) && r.nonDir then Some(IsADirectory)
    else if fs.Exists(r.path) && !fs.IsDir(r.path) && r.dirRequested then Some(NotADirectory)
    else None
  }

  /** What opening the target came to. `overwritten`: an existing file was truncated. */
  datatype Target = Target(fs: Fs, ino: Option<Ino>, isDir: bool, writable: bool, overwritten: bool)

  function OpenFlags(r: CreateReq, tryRw: bool): Flags {
    Flags(r.disposition == FILE_CREATE || r.disposition == FILE_OPEN_IF || r.disposition == FILE_OVERWRITE_IF
          || r.disposition == FILE_SUPERSEDE,
          r.disposition == FILE_CREATE,
          r.disposition == FILE_OVERWRITE || r.disposition == FILE_OVERWRITE_IF || r.disposition == FILE_SUPERSEDE,
          tryRw)
  }

  function OpenFile(fs: Fs, t: Tree, r: CreateReq, newIno: Ino, ok: bool): Target {
    var tryRw := r.wantsWrite || (r.maxAllowed && !t.readOnly) || r.Creates();
    var f := OpenFlags(r, tryRw);
    match OpenAt(fs, r.path, f, newIno, ok)
    case Opened(fs', ino) => Target(fs', Some(ino), false, tryRw, fs.Exists(r.path) && f.trunc)
    case Failed => Target(fs, None, false, false, false)
    case Eacces =>
      // retry read-only unless writing was asked for outright
      if tryRw && !r.wantsWrite then
        match OpenAt(fs, r.path, f.(rdwr := false), newIno, ok)
        case Opened(fs', ino) => Target(fs', Some(ino), false, false, false)
        case _ => Target(fs, None, false, false, false)
      else Target(fs, None, false, false, false)
  }

  function OpenDir(fs: Fs, r: CreateReq, newIno: Ino, ok: bool): Target {
    if fs.Exists(r.path) then Target(fs, if ok then Some(fs.names[r.path]) else None, true, false, false)
    else if ok then Target(fs.Made(r.path, newIno, Node(true, true, 0)), Some(newIno), true, false, false)
    else Target(fs, None, true, false, false)
  }

  function OpenTarget(fs: Fs, t: Tree, r: CreateReq, newIno: Ino, ok: bool): Target {
    if fs.IsDir(r.path) || (r.dirRequested && !fs.Exists(r.path)) then OpenDir(fs, r, newIno, ok)
    else OpenFile(fs, t, r, newIno, ok)
  }

  /** The request that gets past a read-only tree: a disposition outside the six of MS-SMB2
      section 2.2.13, asking for a directory that does not exist. */
  predicate Gap(fs: Fs, r: CreateReq) {
    r.disposition > FILE_OVERWRITE_IF && r.dirRequested && !fs.Exists(r.path)
  }

  /** On a read-only tree a CREATE changes the file system exactly through that gap, and never
      yields an open that could change anything later. */
  lemma ReadOnlyCreate(fs: Fs, t: Tree, r: CreateReq, newIno: Ino, ok: bool)
    requires t.readOnly && r.Typed() && Refusal(fs, t, r).None?
    ensures OpenTarget(fs, t, r, newIno, ok).fs != fs <==> Gap(fs, r) && ok
    ensures !OpenTarget(fs, t, r, newIno, ok).writable && !r.deleteOnClose
  {
    var d := OpenTarget(fs, t, r, newIno, ok);
    if Gap(fs, r) && ok {
      assert r.path in d.fs.names && r.path !in fs.names;
    }
  }

  /** With one of the six dispositions nothing changes. */
  lemma SixDispositions(fs: Fs, t: Tree, r: CreateReq, newIno: Ino, ok: bool)
    requires t.readOnly && r.Typed() && Refusal(fs, t, r).None? && r.disposition <= FILE_OVERWRITE_IF
    ensures OpenTarget(fs, t, r, newIno, ok).fs == fs
  {
    ReadOnlyCreate(fs, t, r, newIno, ok);
  }

  /** The gap is real: such a request makes a directory on a read-only tree. */
  lemma GapExample(newIno: Ino)
    ensures var r := CreateReq("d", false, false, false, false, 6, false, true, false, None);
            var fs, t := Fs(map[], map[]), Tree(0, false, true);
            && r.Typed() && Refusal(fs, t, r).None?
            && OpenTarget(fs, t, r, newIno, true).fs.IsDir("d")
  {
  }

  /** A truncating open that succeeds bumps the file's version and reports the overwrite. */
  lemma OverwriteSeen(fs: Fs, t: Tree, r: CreateReq, newIno: Ino, ok: bool)
    requires Refusal(fs, t, r).None? && fs.Exists(r.path) && OpenTarget(fs, t, r, newIno, ok).ino.Some?
    ensures var d := OpenTarget(fs, t, r, newIno, ok);
            d.ino.value == fs.names[r.path] && (d.fs != fs ==> d.overwritten)
  {
  }

  /** The leases once an open is made: those an overwrite made stale are broken before its own is
      granted. */
  function AdmitLeases(t: Table, share: nat, r: CreateReq, d: Target, leasing: bool): Table
    requires WellFormed(t) && d.ino.Some?
  {
    var k := (share, d.ino.value);
    var t1 := if d.overwritten then Broken(t, k, r.Key()) else t;
    BrokenOnly(t, k, r.Key());
    if leasing && !d.isDir && r.lease.Some? then Granted(t1, k, r.lease.value) else t1
  }

  lemma OneMoreOpen(trees: map<nat, Tree>, handles: map<nat, Open>, id: nat, tid: nat)
    requires Disciplined(trees, handles) && tid in trees
    ensures forall o: Open :: o.tree == tid && Suits(trees[tid], o) ==> Disciplined(trees, handles[id := o])
  {
  }

  lemma AdmitFacts(t: Table, share: nat, r: CreateReq, d: Target, leasing: bool)
    requires WellFormed(t) && d.ino.Some?
    ensures var k, t' := (share, d.ino.value), AdmitLeases(t, share, r, d, leasing);
            && WellFormed(Broken(t, k, r.Key())) && WellFormed(t') && (d.overwritten ==> OnlyActor(t', k, r.Key()))
  {
    BrokenOnly(t, (share, d.ino.value), r.Key());
  }

  // ------------------------------------------------------------- SET_INFO

  datatype SetInfo =
    | Basic                                             // timestamps
    | Disposition(delete: bool)
    | Rename(replace: bool, to: Path, toRoot: bool)
    | Allocation
    | EndOfFile
    | OtherClass

  /** The file a rename replaces, whose holders must learn of it too. */
  function Replaced(fs: Fs, o: Open, to: Path): Option<Ino> {
    if fs.Exists(to) && !fs.IsDir(to) && fs.names[to] != o.ino then Some(fs.names[to]) else None
  }

  function RenameRefusal(fs: Fs, o: Open, s: SetInfo): Option<Status>
    requires s.Rename?
  {
    if o.root || s.toRoot then Some(AccessDenied)
    else if !s.replace && fs.Exists(s.to) then Some(NameCollision)
    else if !fs.Exists(o.path) then Some(NameNotFound)
    else None
  }

  /** How a SET_INFO on the open `o` ends; `ok`: the kernel lets it happen, and for a deletion the
      directory is empty. */
  function SetInfoStatus(fs: Fs, o: Open, s: SetInfo, ok: bool): Status {
    match s
    case Basic => if ok then Success else IoError
    case Allocation => Success
    case OtherClass => NotSupported
    case Disposition(delete) =>
      if delete && o.root then AccessDenied else if delete && o.isDir && !ok then NotEmpty else Success
    case EndOfFile => if ok then Success else IoError
    case Rename(_, _, _) =>
      var refused := RenameRefusal(fs, o, s);
      if refused.Some? then refused.value else if ok then Success else IoError
  }

  /** The leases broken by a rename: the open's own file, unless it is a directory, and a
      replaced one. */
  function RenameBreaks(fs: Fs, t: Table, o: Open, to: Path): Table {
    var t1 := if o.isDir then t else Broken(t, (o.share, o.ino), o.leaseKey);
    var r := Replaced(fs, o, to);
    if r.Some? then Broken(t1, (o.share, r.value), o.leaseKey) else t1
  }

  /** After a rename, the grants left on the replaced file and, for a file, on the open's own
      carry the actor's key. The file that moved is the one the open's path names: its grants
      do so exactly when that is the open's own file, the replaced one, or had no others. */
  lemma RenameExact(fs: Fs, t: Table, o: Open, to: Path)
    requires WellFormed(t) && fs.Exists(o.path)
    ensures var t', moved := RenameBreaks(fs, t, o, to), fs.names[o.path];
            && WellFormed(t')
            && (fs.Exists(to) && !fs.IsDir(to) && !(o.isDir && fs.names[to] == o.ino) ==>
                  OnlyActor(t', (o.share, fs.names[to]), o.leaseKey))
            && (!o.isDir ==> OnlyActor(t', (o.share, o.ino), o.leaseKey))
            && (OnlyActor(t', (o.share, moved), o.leaseKey) <==>
                  || (!o.isDir && moved == o.ino) || Replaced(fs, o, to) == Some(moved)
                  || OnlyActor(t, (o.share, moved), o.leaseKey))
  {
    var own := (o.share, o.ino);
    BrokenOnly(t, own, o.leaseKey);
    var t1 := if o.isDir then t else Broken(t, own, o.leaseKey);
    var r := Replaced(fs, o, to);
    if r.Some? {
      BrokenOnly(t1, (o.share, r.value), o.leaseKey);
    }
  }

  // ---------------------------------------------------------------- CLOSE

  /** Leases after a handle is gone: its own released unless the client caches the handle,
      and others' broken when the file is to be deleted. */
  function CloseLeases(t: Table, o: Open): Table {
    var t1 := if o.leased && o.leaseKey.Some? && !o.handleCaching then Released(t, (o.share, o.ino), o.leaseKey.value) else t;
    if o.deleteOnClose && !o.isDir then Broken(t1, (o.share, o.ino), o.leaseKey) else t1
  }

  /** Whether deleting by name succeeds; `ok`: the kernel allows it. */
  predicate Removable(fs: Fs, o: Open, ok: bool) {
    ok && fs.Exists(o.path) && fs.IsDir(o.path) == o.isDir
  }

  function CloseFs(fs: Fs, o: Open, ok: bool): Fs {
    if o.deleteOnClose && Removable(fs, o, ok) then fs.Unlinked(o.path) else fs
  }

  lemma ReleasedKept(t: Table, k: FileKey, lk: LeaseKey)
    requires WellFormed(t)
    ensures WellFormed(Released(t, k, lk))
    ensures forall k' :: k' != k ==> Grants(Released(t, k, lk), k') == Grants(t, k')
  {
    KeptDistinct(Grants(t, k), Releasing(lk));
  }

  /** Deleting a file on close: the grants left on the open's own file carry its key. The file
      deleted is the one the path names: its grants do so exactly when that is the open's own
      file, or it had no others. */
  lemma DeleteExact(fs: Fs, t: Table, o: Open)
    requires WellFormed(t) && o.deleteOnClose && !o.isDir && fs.Exists(o.path)
    ensures WellFormed(CloseLeases(t, o)) && OnlyActor(CloseLeases(t, o), (o.share, o.ino), o.leaseKey)
    ensures var gone := fs.names[o.path];
            OnlyActor(CloseLeases(t, o), (o.share, gone), o.leaseKey) <==>
              gone == o.ino || OnlyActor(t, (o.share, gone), o.leaseKey)
  {
    var own := (o.share, o.ino);
    if o.leased && o.leaseKey.Some? && !o.handleCaching {
      ReleasedKept(t, own, o.leaseKey.value);
      BrokenOnly(Released(t, own, o.leaseKey.value), own, o.leaseKey);
    } else {
      BrokenOnly(t, own, o.leaseKey);
    }
  }

  lemma CloseWellFormed(t: Table, o: Open)
    requires WellFormed(t)
    ensures WellFormed(CloseLeases(t, o))
  {
    var own := (o.share, o.ino);
    var t1 := if o.leased && o.leaseKey.Some? && !o.handleCaching then Released(t, own, o.leaseKey.value) else t;
    KeptDistinct(Grants(t, own), Releasing(if o.leaseKey.Some? then o.leaseKey.value else []));
    BrokenOnly(t1, own, o.leaseKey);
  }

  /** A file renamed away by someone else and replaced under the old name: deleting the open then
      removes the other file and leaves its leases in place. */
  lemma StalePathExample(other: Grant)
    requires other.leaseKey != [1]
    ensures var o := Open(1, 0, 7, "f", false, false, true, true, Some([1]), false, false);
            var fs, t := Fs(map["f" := 8, "g" := 7], map[7 := Node(false, true, 0), 8 := Node(false, true, 0)]), map[(0, 8) := [other]];
            && WellFormed(t) && !CloseFs(fs, o, true).Exists("f")
            && !OnlyActor(CloseLeases(t, o), (0, 8), o.leaseKey)
  {
    var t: Table := map[(0, 8) := [other]];
    assert other in Grants(t, (0, 8));
  }

  // ----------------------------------------------- many opens leaving at once

  /** The opens `ids` leave one after the other; `ok` says for each whether the kernel lets it
      delete its file. */
  function FsAfter(fs: Fs, opens: map<nat, Open>, ids: seq<nat>, ok: nat -> bool): Fs
    requires forall i :: 0 <= i < |ids| ==> ids[i] in opens
  {
    if ids == [] then fs
    else
      var k := |ids| - 1;
      CloseFs(FsAfter(fs, opens, ids[..k], ok), opens[ids[k]], ok(ids[k]))
  }

  function LeasesAfter(t: Table, opens: map<nat, Open>, ids: seq<nat>): Table
    requires forall i :: 0 <= i < |ids| ==> ids[i] in opens
  {
    if ids == [] then t
    else
      var k := |ids| - 1;
      CloseLeases(LeasesAfter(t, opens, ids[..k]), opens[ids[k]])
  }

  /** Each of the opens `left` has left, once, and files and leases are what that makes of them. */
  ghost predicate AllLeft(fs0: Fs, t0: Table, opens: map<nat, Open>, left: set<nat>, ids: seq<nat>, ok: nat -> bool, fs: Fs, t: Table) {
    && (forall i :: 0 <= i < |ids| ==> ids[i] in opens)
    && (forall h :: h in ids <==> h in left) && (forall i, j :: 0 <= i < j < |ids| ==> ids[i] != ids[j])
    && fs == FsAfter(fs0, opens, ids, ok) && t == LeasesAfter(t0, opens, ids)
  }

  lemma OneMoreLeft(fs0: Fs, t0: Table, opens: map<nat, Open>, left: set<nat>, ids: seq<nat>, ok: nat -> bool, fs: Fs, t: Table, h: nat)
    requires AllLeft(fs0, t0, opens, left, ids, ok, fs, t) && h in opens && h !in left
    ensures AllLeft(fs0, t0, opens, left + {h}, ids + [h], ok, CloseFs(fs, opens[h], ok(h)), CloseLeases(t, opens[h]))
  {
    assert (ids + [h])[..|ids|] == ids;
    assert forall x :: x in ids + [h] <==> x in ids || x == h;
  }

  /** Only names go, and only names under which an open marked for deletion was made or renamed. */
  ghost predicate OnlyDeleted(fs0: Fs, opens: map<nat, Open>, left: set<nat>, fs: Fs) {
    && fs.nodes == fs0.nodes
    && (forall p :: p in fs.names ==> p in fs0.names && fs.names[p] == fs0.names[p])
    && (forall p :: p in fs0.names && p !in fs.names ==> exists h :: h in left && h in opens && DeletedBy(opens[h], p))
  }

  predicate DeletedBy(o: Open, p: Path) { o.deleteOnClose && o.path == p }

  lemma {:induction false} AfterDeletes(fs0: Fs, opens: map<nat, Open>, left: set<nat>, ids: seq<nat>, ok: nat -> bool)
    requires forall i :: 0 <= i < |ids| ==> ids[i] in opens && ids[i] in left
    ensures OnlyDeleted(fs0, opens, left, FsAfter(fs0, opens, ids, ok))
  {
    if ids != [] {
      var k := |ids| - 1;
      AfterDeletes(fs0, opens, left, ids[..k], ok);
      var was, now, o := FsAfter(fs0, opens, ids[..k], ok), FsAfter(fs0, opens, ids, ok), opens[ids[k]];
      forall p | p in fs0.names && p !in now.names ensures exists h :: h in left && h in opens && DeletedBy(opens[h], p) {
        if p in was.names { assert DeletedBy(opens[ids[k]], p); }
      }
    }
  }

  lemma LeftDeletes(fs0: Fs, t0: Table, opens: map<nat, Open>, left: set<nat>, ids: seq<nat>, ok: nat -> bool, fs: Fs, t: Table)
    requires AllLeft(fs0, t0, opens, left, ids, ok, fs, t)
    ensures OnlyDeleted(fs0, opens, left, fs)
  {
    forall i | 0 <= i < |ids| ensures ids[i] in left { assert ids[i] in ids; }
    AfterDeletes(fs0, opens, left, ids, ok);
  }

  // ------------------------------------------------------------- the code

  const MAX_TREES_PER_SESSION := 1024
  const MAX_OPENS_PER_SESSION := 16384
  const U32: nat := 0x1_0000_0000

  type Id32 = n: nat | n < U32

  /** Wraps. */
  function Bumped(n: Id32): Id32 { if n == U32 - 1 then 0 else n + 1 }

  /** One session, with the file system and the lease table it shares with the others. */
  class Session {
    var fs: Fs
    var leases: Table
    var trees: map<nat, Tree>
    var nextTree: Id32
    var handles: map<nat, Open>

    ghost predicate Valid()
      reads this
    {
      WellFormed(leases) && Disciplined(trees, handles)
    }

    constructor (files: Fs, table: Table)
      requires WellFormed(table)
      ensures Valid() && fs == files && leases == table && trees == map[] && handles == map[] && nextTree == 0
    {
      fs, leases, trees, nextTree, handles := files, table, map[], 0, map[];
    }

    /** Other sessions change files and leases as they please. */
    method Others(files: Fs, table: Table)
      requires Valid() && WellFormed(table)
      modifies this`fs, this`leases
      ensures Valid() && fs == files && leases == table
    {
      fs, leases := files, table;
    }

    /** The tree id is a 32-bit counter that wraps. Opens keep their discipline exactly when every
        open under the new id, left from a tree the counter has come round to, suits the new tree. */
    method TreeConnect(t: Tree) returns (r: Option<nat>)
      requires Valid()
      modifies this`trees, this`nextTree
      ensures r.Some? <==> |old(trees)| < MAX_TREES_PER_SESSION
      ensures r.None? ==> trees == old(trees) && nextTree == old(nextTree) && Valid()
      ensures r.Some? ==> r.value == nextTree == Bumped(old(nextTree)) && trees == old(trees)[r.value := t]
      ensures r.Some? ==> (Valid() <==> forall h :: h in handles && handles[h].tree == r.value ==> Suits(t, handles[h]))
      ensures r.Some? && r.value !in old(trees) ==> Valid()
    {
      if |trees| >= MAX_TREES_PER_SESSION { return None; }
      nextTree := Bumped(nextTree);
      trees := trees[nextTree := t];
      r := Some(nextTree);
    }

    /** An open is found only under the tree it was made on. */
    function Lookup(tid: nat, fid: nat): Option<Open>
      reads this
    {
      if fid in handles && handles[fid].tree == tid then Some(handles[fid]) else None
    }

    /** `newIno` and `newId` are what the kernel and the handle table would give out; `ok` and
        `after` whether opening, and what follows it, succeed. */
    method Create(tid: nat, r: CreateReq, newIno: Ino, newId: nat, ok: bool, after: bool, leasing: bool) returns (st: Status)
      requires Valid() && r.Typed() && newId !in handles
      modifies this`fs, this`leases, this`handles
      ensures Valid()
      // a read-only tree changes only through the gap
      ensures tid in trees && trees[tid].readOnly && fs != old(fs) ==> Gap(old(fs), r)
      ensures tid !in trees ==> fs == old(fs)
      // it succeeds when nothing refuses it and the kernel lets it
      ensures st.Success? <==>
                && tid in trees && !trees[tid].ipc && |old(handles)| < MAX_OPENS_PER_SESSION && after
                && Refusal(old(fs), trees[tid], r).None? && OpenTarget(old(fs), trees[tid], r, newIno, ok).ino.Some?
      ensures st.Success? ==>
                var d := OpenTarget(old(fs), trees[tid], r, newIno, ok);
                && fs == d.fs && leases == AdmitLeases(old(leases), trees[tid].share, r, d, leasing)
                && newId in handles && handles[newId].writable == d.writable && handles[newId].deleteOnClose == r.deleteOnClose
      // on success there is one new open, on the file the name then names
      ensures !st.Success? ==> handles == old(handles) && leases == old(leases)
      ensures st.Success? ==> newId in handles && handles == old(handles)[newId := handles[newId]] && handles[newId].tree == tid
                              && handles[newId].leaseKey == r.Key() && handles[newId].path == r.path
                              && r.path in fs.names && handles[newId].ino == fs.names[r.path]
      // an overwritten file is left only with leases of the actor's own key
      ensures st.Success? && r.path in old(fs).names && fs != old(fs) ==>
                OnlyActor(leases, (handles[newId].share, fs.names[r.path]), r.Key())
    {
      if tid !in trees { return NetworkNameDeleted; }
      if trees[tid].ipc { return AccessDenied; }
      if |handles| >= MAX_OPENS_PER_SESSION { return InsufficientResources; }
      var refused := Refusal(fs, trees[tid], r);
      if refused.Some? { return refused.value; }
      var d := OpenTarget(fs, trees[tid], r, newIno, ok);
      CreateFacts(fs, trees[tid], r, newIno, ok);
      if d.ino.None? || !after {
        fs := d.fs;
        return IoError;
      }
      st := Success;
      Admit(tid, r, d, newId, leasing);
    }

    /** Record a new open: break the leases an overwrite made stale, then grant its own. */
    method Admit(tid: nat, r: CreateReq, d: Target, newId: nat, leasing: bool)
      requires Valid() && tid in trees && !trees[tid].ipc && newId !in handles && d.ino.Some?
      requires d.writable || r.deleteOnClose ==> !trees[tid].readOnly
      modifies this`fs, this`leases, this`handles
      ensures Valid() && fs == d.fs && newId in handles && handles == old(handles)[newId := handles[newId]]
      ensures handles[newId].tree == tid && handles[newId].share == trees[tid].share && handles[newId].ino == d.ino.value
      ensures handles[newId].path == r.path && handles[newId].leaseKey == r.Key()
      ensures handles[newId].writable == d.writable && handles[newId].deleteOnClose == r.deleteOnClose
      ensures leases == AdmitLeases(old(leases), trees[tid].share, r, d, leasing)
      ensures d.overwritten ==> OnlyActor(leases, (trees[tid].share, d.ino.value), r.Key())
    {
      var k := (trees[tid].share, d.ino.value);
      var grant := leasing && !d.isDir && r.lease.Some?;
      AdmitFacts(leases, k.0, r, d, leasing);
      fs := d.fs;
      leases := AdmitLeases(leases, k.0, r, d, leasing);
      OneMoreOpen(trees, handles, newId, tid);
      handles := handles[newId := Open(tid, k.0, k.1, r.path, r.root, d.isDir, d.writable, r.deleteOnClose, r.Key(), grant,
                                       grant && r.lease.value.state / 2 % 2 == 1)];
    }

    /** `partial`: a failed write may still have changed data. */
    method Write(tid: nat, fid: nat, ok: bool, partial: bool) returns (st: Status)
      requires Valid()
      modifies this`fs, this`leases
      ensures Valid()
      ensures fs != old(fs) ==> tid in trees && !trees[tid].readOnly && Lookup(tid, fid).Some? && Lookup(tid, fid).value.writable
      // exactly a write through a writable open on a writable tree succeeds
      ensures st.Success? <==>
                && tid in trees && !trees[tid].ipc && !trees[tid].readOnly
                && Lookup(tid, fid).Some? && Lookup(tid, fid).value.writable && ok
      ensures st.Success? ==>
                var o := Lookup(tid, fid).value;
                fs == old(fs).Touched(o.ino) && OnlyActor(leases, (o.share, o.ino), o.leaseKey)
      ensures !st.Success? ==> leases == old(leases)
    {
      if tid !in trees { return NetworkNameDeleted; }
      if trees[tid].ipc || trees[tid].readOnly { return AccessDenied; }
      var o := Lookup(tid, fid);
      if o.None? { return FileClosed; }
      if !o.value.writable { return AccessDenied; }
      var k := (trees[tid].share, o.value.ino);
      BrokenOnly(leases, k, o.value.leaseKey);
      if ok || partial { fs := fs.Touched(o.value.ino); }
      if ok { leases := Broken(leases, k, o.value.leaseKey); }
      st := if ok then Success else IoError;
    }

    method SetInfo(tid: nat, fid: nat, s: SetInfo, ok: bool) returns (st: Status)
      requires Valid()
      modifies this`fs, this`leases, this`handles
      ensures Valid() && handles.Keys == old(handles).Keys
      ensures fs != old(fs) ==> tid in trees && !trees[tid].readOnly
      ensures fs != old(fs) || st.Success? ==> old(Lookup(tid, fid)).Some?
      ensures tid in trees && !trees[tid].ipc && !trees[tid].readOnly && old(Lookup(tid, fid)).Some? ==>
                st == SetInfoStatus(old(fs), old(Lookup(tid, fid)).value, s, ok)
      ensures !(tid in trees && !trees[tid].ipc && !trees[tid].readOnly) ==> !st.Success?
      ensures s.Basic? || s.Allocation? || s.OtherClass? ==> fs == old(fs) && leases == old(leases) && handles == old(handles)
      // marking for deletion, or unmarking
      ensures st.Success? && s.Disposition? ==>
                var o := old(Lookup(tid, fid)).value;
                && handles == old(handles)[fid := o.(deleteOnClose := s.delete)] && fs == old(fs)
                && (s.delete && !o.isDir ==> OnlyActor(leases, (o.share, o.ino), o.leaseKey))
      // truncating or extending
      ensures st.Success? && s.EndOfFile? && !old(Lookup(tid, fid)).value.isDir ==>
                var o := old(Lookup(tid, fid)).value;
                fs == old(fs).Touched(o.ino) && OnlyActor(leases, (o.share, o.ino), o.leaseKey)
      // renaming moves the name and follows it
      ensures st.Success? && s.Rename? ==>
                var o := old(Lookup(tid, fid)).value;
                && o.path in old(fs).names && fs == old(fs).Renamed(o.path, s.to)
                && leases == RenameBreaks(old(fs), old(leases), o, s.to)
                && handles == old(handles)[fid := o.(path := s.to, root := false)]
      ensures !st.Success? ==> leases == old(leases) && handles == old(handles)
    {
      if tid !in trees { return NetworkNameDeleted; }
      if trees[tid].ipc || trees[tid].readOnly { return AccessDenied; }
      var h := Lookup(tid, fid);
      if h.None? { return FileClosed; }
      var o := h.value;
      match s
      case Basic =>
        st := if ok then Success else IoError;
      case Allocation =>
        st := Success;
      case OtherClass =>
        st := NotSupported;
      case Disposition(delete) =>
        st := SetDisposition(fid, o, delete, ok);
      case EndOfFile =>
        st := Truncate(o, ok);
      case Rename(_, _, _) =>
        st := SetRename(fid, o, s, ok);
    }

    /** Mark or unmark for deletion; `ok`: a directory is empty. */
    method SetDisposition(fid: nat, o: Open, delete: bool, ok: bool) returns (st: Status)
      requires Valid() && fid in handles && handles[fid] == o && !trees[o.tree].readOnly
      modifies this`leases, this`handles
      ensures Valid() && handles.Keys == old(handles).Keys
      ensures !st.Success? ==> leases == old(leases) && handles == old(handles)
      ensures st == SetInfoStatus(fs, o, Disposition(delete), ok)
      ensures st.Success? ==> handles == old(handles)[fid := o.(deleteOnClose := delete)]
      ensures st.Success? && delete && !o.isDir ==> OnlyActor(leases, (o.share, o.ino), o.leaseKey)
    {
      if delete && o.root { return AccessDenied; }
      if delete && o.isDir && !ok { return NotEmpty; }
      handles := handles[fid := o.(deleteOnClose := delete)];
      BrokenOnly(leases, (o.share, o.ino), o.leaseKey);
      if delete && !o.isDir { leases := Broken(leases, (o.share, o.ino), o.leaseKey); }
      st := Success;
    }

    method Truncate(o: Open, ok: bool) returns (st: Status)
      requires WellFormed(leases)
      modifies this`fs, this`leases
      ensures WellFormed(leases) && st == (if ok then Success else IoError) && (!ok ==> fs == old(fs) && leases == old(leases))
      ensures ok ==> fs == old(fs).Touched(o.ino)
      ensures ok && !o.isDir ==> OnlyActor(leases, (o.share, o.ino), o.leaseKey)
    {
      if !ok { return IoError; }
      fs := fs.Touched(o.ino);
      BrokenOnly(leases, (o.share, o.ino), o.leaseKey);
      if !o.isDir { leases := Broken(leases, (o.share, o.ino), o.leaseKey); }
      st := Success;
    }

    method SetRename(fid: nat, o: Open, s: SetInfo, ok: bool) returns (st: Status)
      requires Valid() && fid in handles && handles[fid] == o && s.Rename?
      modifies this`fs, this`leases, this`handles
      ensures Valid() && handles.Keys == old(handles).Keys && st == SetInfoStatus(old(fs), o, s, ok)
      ensures st.Success? ==>
                && o.path in old(fs).names && fs == old(fs).Renamed(o.path, s.to)
                && leases == RenameBreaks(old(fs), old(leases), o, s.to)
                && handles == old(handles)[fid := o.(path := s.to, root := false)]
      ensures !st.Success? ==> fs == old(fs) && leases == old(leases) && handles == old(handles)
    {
      var refused := RenameRefusal(fs, o, s);
      if refused.Some? { return refused.value; }
      if !ok { return IoError; }
      RenameExact(fs, leases, o, s.to);
      leases := RenameBreaks(fs, leases, o, s.to);
      fs := fs.Renamed(o.path, s.to);
      handles := handles[fid := o.(path := s.to, root := false)];
      st := Success;
    }

    /** What happens when an open leaves the table, however it does. */
    method FinishClose(o: Open, ok: bool) returns (st: Status)
      requires WellFormed(leases)
      modifies this`fs, this`leases
      ensures WellFormed(leases) && leases == CloseLeases(old(leases), o) && fs == CloseFs(old(fs), o, ok)
      ensures st.Success? <==> !o.deleteOnClose || Removable(old(fs), o, ok)
      ensures fs != old(fs) ==> o.deleteOnClose
    {
      CloseWellFormed(leases, o);
      var own := (o.share, o.ino);
      if o.leased && o.leaseKey.Some? && !o.handleCaching { leases := Released(leases, own, o.leaseKey.value); }
      if !o.deleteOnClose { return Success; }
      if !o.isDir { leases := Broken(leases, own, o.leaseKey); }
      if Removable(fs, o, ok) {
        fs := fs.Unlinked(o.path);
        st := Success;
      } else {
        st := IoError;
      }
    }

    method Close(tid: nat, fid: nat, ok: bool) returns (st: Status)
      requires Valid()
      modifies this`fs, this`leases, this`handles
      ensures Valid()
      ensures fs != old(fs) ==> tid in trees && !trees[tid].readOnly
      ensures old(Lookup(tid, fid)).None? ==> handles == old(handles) && fs == old(fs) && leases == old(leases)
      ensures tid in trees && !trees[tid].ipc && old(Lookup(tid, fid)).Some? ==>
                var o := old(Lookup(tid, fid)).value;
                && handles == old(handles) - {fid} && leases == CloseLeases(old(leases), o) && fs == CloseFs(old(fs), o, ok)
                && (st.Success? <==> !o.deleteOnClose || Removable(old(fs), o, ok))
    {
      if tid !in trees { return NetworkNameDeleted; }
      if trees[tid].ipc { return AccessDenied; }
      var o := Lookup(tid, fid);
      if o.None? { return FileClosed; }
      handles := handles - {fid};
      st := FinishClose(o.value, ok);
    }

    /** The opens `left` leave the session, in some order. */
    method LeaveAll(opens: map<nat, Open>, left: set<nat>, ok: nat -> bool) returns (ghost ids: seq<nat>)
      requires WellFormed(leases) && forall h :: h in left ==> h in opens
      modifies this`fs, this`leases
      ensures WellFormed(leases) && AllLeft(old(fs), old(leases), opens, left, ids, ok, fs, leases)
      ensures OnlyDeleted(old(fs), opens, left, fs)
    {
      ids := [];
      var rest := left;
      ghost var gone: set<nat> := {};
      while rest != {}
        invariant rest <= left && gone == left - rest
        invariant WellFormed(leases) && AllLeft(old(fs), old(leases), opens, gone, ids, ok, fs, leases)
        decreases |rest|
      {
        var fid :| fid in rest;
        OneMoreLeft(old(fs), old(leases), opens, gone, ids, ok, fs, leases, fid);
        var _ := FinishClose(opens[fid], ok(fid));
        ids, gone, rest := ids + [fid], gone + {fid}, rest - {fid};
      }
      assert gone == left;
      LeftDeletes(old(fs), old(leases), opens, left, ids, ok, fs, leases);
    }

    /** A tree goes with every open made on it. Files and leases are what closing those opens makes of
        them: only names of opens marked for deletion go, and on a read-only tree none. */
    method TreeDisconnect(tid: nat, ok: nat -> bool) returns (st: Status, ghost ids: seq<nat>)
      requires Valid()
      modifies this`fs, this`leases, this`trees, this`handles
      ensures Valid() && trees == old(trees) - {tid} && handles == old(handles) - OnTree(old(handles), tid)
      ensures st.Success? <==> tid in old(trees)
      ensures AllLeft(old(fs), old(leases), old(handles), OnTree(old(handles), tid), ids, ok, fs, leases)
      ensures OnlyDeleted(old(fs), old(handles), OnTree(old(handles), tid), fs)
      ensures tid in old(trees) && old(trees)[tid].readOnly ==> fs == old(fs)
    {
      var left := OnTree(handles, tid);
      if tid !in trees {
        assert left == {} && trees - {tid} == trees && handles - left == handles;
        ids := [];
        return NetworkNameDeleted, ids;
      }
      ghost var t := trees[tid];
      trees := trees - {tid};
      var opens := handles;
      handles := handles - left;
      ids := LeaveAll(opens, left, ok);
      if t.readOnly {
        NoneDeleted(old(fs), opens, left, fs);
      }
      st := Success;
    }

    /** The session ends: no tree and no open is left. Files and leases are what closing every open
        makes of them: only names of opens marked for deletion go, and those opens were made on trees
        that are not read-only. */
    method EndSession(ok: nat -> bool) returns (ghost ids: seq<nat>)
      requires Valid()
      modifies this`fs, this`leases, this`trees, this`handles
      ensures Valid() && trees == map[] && handles == map[]
      ensures AllLeft(old(fs), old(leases), old(handles), old(handles).Keys, ids, ok, fs, leases)
      ensures OnlyDeleted(old(fs), old(handles), old(handles).Keys, fs)
      ensures forall h :: h in old(handles) && old(handles)[h].deleteOnClose ==>
                old(handles)[h].tree in old(trees) && !old(trees)[old(handles)[h].tree].readOnly
    {
      trees := map[];
      var opens := handles;
      handles := map[];
      ids := LeaveAll(opens, opens.Keys, ok);
    }
  }

  /** The opens made on a tree. */
  function OnTree(opens: map<nat, Open>, tid: nat): set<nat> {
    set h | h in opens && opens[h].tree == tid
  }

  lemma NoneDeleted(fs0: Fs, opens: map<nat, Open>, left: set<nat>, fs: Fs)
    requires OnlyDeleted(fs0, opens, left, fs) && forall h :: h in left ==> h in opens && !opens[h].deleteOnClose
    ensures fs == fs0
  {
    assert forall p :: p in fs0.names ==> p in fs.names;
    assert fs.names == fs0.names;
  }

  /** A run of one session: a file is opened for writing on the first tree, further trees come and go
      until the 32-bit counter has come round, and the first tree's id is given to a read-only tree.
      The open for writing then sits on that tree. */
  method TreeWrapExample() returns (s: Session, fid: nat)
    ensures fid in s.handles && s.handles[fid].tree in s.trees
    ensures s.handles[fid].writable && s.trees[s.handles[fid].tree].readOnly && !s.Valid()
  {
    s := new Session(Fs(map[], map[]), map[]);
    fid := 7;
    OpenOnFirst(s, fid);
    ComeRound(s);
    var r := s.TreeConnect(Tree(0, false, false));
    r := s.TreeConnect(Tree(0, false, true));
    assert !Suits(Tree(0, false, true), s.handles[fid]);
  }

  /** Connect the first tree of a new session and create a file on it. */
  method OpenOnFirst(s: Session, fid: nat)
    requires s.Valid() && s.trees == map[] && s.handles == map[] && s.nextTree == 0 && s.fs == Fs(map[], map[])
    modifies s
    ensures s.Valid() && s.nextTree == 1 && s.trees == map[1 := Tree(0, false, false)]
    ensures s.handles.Keys == {fid} && s.handles[fid].writable && s.handles[fid].tree == 1
  {
    var _ := s.TreeConnect(Tree(0, false, false));
    var req := CreateReq("f", false, true, true, false, FILE_CREATE, false, false, false, None);
    var _ := s.Create(1, req, 5, fid, true, true, false);
  }

  /** Connect and disconnect a second tree until the counter is about to wrap. */
  method ComeRound(s: Session)
    requires s.Valid() && s.nextTree == 1 && s.trees == map[1 := Tree(0, false, false)]
    requires forall h :: h in s.handles ==> s.handles[h].tree == 1
    modifies s
    ensures s.Valid() && s.nextTree == U32 - 1 && s.trees == old(s.trees) && s.handles == old(s.handles)
  {
    while s.nextTree < U32 - 1
      invariant s.Valid() && s.trees == old(s.trees) && s.handles == old(s.handles) && 1 <= s.nextTree < U32
    {
      InAndOut(s);
    }
  }

  method InAndOut(s: Session)
    requires s.Valid() && 1 <= s.nextTree < U32 - 1 && s.trees == map[1 := Tree(0, false, false)]
    requires forall h :: h in s.handles ==> s.handles[h].tree == 1
    modifies s
    ensures s.Valid() && s.nextTree == old(s.nextTree) + 1 && s.trees == old(s.trees) && s.handles == old(s.handles)
  {
    var r := s.TreeConnect(Tree(0, false, false));
    assert OnTree(s.handles, r.value) == {} && s.handles - {} == s.handles;
    var _, _ := s.TreeDisconnect(r.value, h => true);
  }

  lemma CreateFacts(fs: Fs, t: Tree, r: CreateReq, newIno: Ino, ok: bool)
    requires r.Typed() && Refusal(fs, t, r).None?
    ensures var d := OpenTarget(fs, t, r, newIno, ok);
            && (t.readOnly ==> (d.fs != fs ==> Gap(fs, r)) && !d.writable && !r.deleteOnClose)
            && (d.ino.Some? ==> r.path in d.fs.names && d.ino.value == d.fs.names[r.path])
            && (d.ino.Some? && fs.Exists(r.path) && d.fs != fs ==> d.overwritten)
  {
    if t.readOnly { ReadOnlyCreate(fs, t, r, newIno, ok); }
  }
}
