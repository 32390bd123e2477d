/**
 Blob rows and the files behind them, over every interleaving of Put, the collector, killed
 processes and power losses.

 Put fsyncs a temporary file, renames it into place, fsyncs the directory and only then
 records the row; when the destination already exists it records the row at once. GC deletes
 the row first and removes the file afterwards. Rows are always backed by durable, complete
 files exactly under a discipline of four rules, none of which the code enforces:

   - putsApart: no two Puts of one hash are between their stat and their row at once;
   - gcApart: no Put of a hash is between its stat and its row while the collector is between
     deleting the row and removing the file of that hash, in either order;
   - finishRename: no Put ends, by an error or by its process being killed, between its rename
     and its directory fsync;
   - shardFirst: no row is recorded before the blob's two shard directories are durable entries
     of their own parents. Put creates them when they are missing and fsyncs the lower one, which
     makes the file's entry durable and says nothing of the directories' own entries.
 */
module BlobFiles {

  // The first byte of a sha256, the second, and the other thirty.
  datatype Hash = Hash(first: nat, second: nat, rest: nat)

  type Pid = nat
  type Bytes = seq<int>

  // A directory entry in place; it survives a power loss only once the directory is synced.
  datatype File = File(content: Bytes, durable: bool)

  datatype Phase =
    | Writing     // streaming into the temporary file
    | Synced      // temporary file complete and fsynced
    | Hit         // the destination existed
    | Miss        // the destination did not exist
    | Renamed     // renamed into place, directory not yet synced
    | DirSynced   // directory synced

  datatype Put = Put(data: Bytes, temp: Bytes, phase: Phase)

  // A blob lives in root/ab/cd: Top(ab) is an entry of the root, Leaf(ab, cd) one of Top(ab).
  datatype Dir = Top(top: nat) | Leaf(top: nat, leaf: nat)

  // `dirs` says of every directory in place whether its own entry survives a power loss.
  datatype State = State(rows: map<Hash, nat>, files: map<Hash, File>, puts: map<Pid, Put>, gcs: map<Pid, Hash>,
                         dirs: map<Dir, bool>)

  datatype Discipline = Discipline(putsApart: bool, gcApart: bool, finishRename: bool, shardFirst: bool)

  function TopOf(h: Hash): Dir {
    Top(h.first)
  }

  function LeafOf(h: Hash): Dir {
    Leaf(h.first, h.second)
  }

  // MkdirAll of the blob's shard: what is there stays as it is.
  function MadeDirs(dirs: map<Dir, bool>, h: Hash): map<Dir, bool> {
    var tops := if TopOf(h) in dirs then dirs else dirs[TopOf(h) := false];
    if LeafOf(h) in tops then tops else tops[LeafOf(h) := false]
  }

  // The shard's own entries survive a power loss.
  predicate Anchored(s: State, h: Hash) {
    TopOf(h) in s.dirs && LeafOf(h) in s.dirs && s.dirs[TopOf(h)] && s.dirs[LeafOf(h)]
  }

  type Sha = Bytes -> Hash

  ghost predicate CollisionFree(sha: Sha) {
    forall a, b :: sha(a) == sha(b) ==> a == b
  }

  // Between its stat of the destination and its row.
  predicate Critical(p: Put) {
    p.phase != Writing && p.phase != Synced
  }

  predicate PutActive(sha: Sha, s: State, h: Hash, but: set<Pid>) {
    exists q | q in s.puts && q !in but :: Critical(s.puts[q]) && sha(s.puts[q].data) == h
  }

  predicate GcActive(s: State, h: Hash) {
    exists g | g in s.gcs :: s.gcs[g] == h
  }

  function WithPut(s: State, p: Pid, put: Put): State {
    s.(puts := s.puts[p := put])
  }

  predicate Start(s: State, s': State, p: Pid, data: Bytes) {
    p !in s.puts && s' == WithPut(s, p, Put(data, [], Writing))
  }

  // One io.Copy chunk, or the fsync once everything is written.
  predicate Stream(s: State, s': State, p: Pid) {
    && p in s.puts
    && var put := s.puts[p];
    && put.phase == Writing && |put.temp| <= |put.data|
    && if put.temp == put.data then s' == WithPut(s, p, put.(phase := Synced))
       else |put.temp| < |put.data| && s' == WithPut(s, p, put.(temp := put.data[..|put.temp| + 1]))
  }

  // MkdirAll of the shard, then the stat of the destination.
  predicate Stat(sha: Sha, d: Discipline, s: State, s': State, p: Pid) {
    && p in s.puts
    && var put := s.puts[p];
    && put.phase == Synced
    && var h := sha(put.data);
    && (d.putsApart ==> !PutActive(sha, s, h, {p}))
    && (d.gcApart ==> !GcActive(s, h))
    && s' == WithPut(s, p, put.(phase := if h in s.files then Hit else Miss)).(dirs := MadeDirs(s.dirs, h))
  }

  predicate Rename(sha: Sha, s: State, s': State, p: Pid) {
    && p in s.puts
    && var put := s.puts[p];
    && put.phase == Miss
    && s' == WithPut(s, p, put.(phase := Renamed)).(files := s.files[sha(put.data) := File(put.temp, false)])
  }

  predicate SyncDir(sha: Sha, s: State, s': State, p: Pid) {
    && p in s.puts
    && var put := s.puts[p];
    && put.phase == Renamed
    && var h := sha(put.data);
    && s' == WithPut(s, p, put.(phase := DirSynced))
             .(files := if h in s.files then s.files[h := s.files[h].(durable := true)] else s.files)
  }

  // recordBlob, after which Put returns.
  predicate Record(sha: Sha, d: Discipline, s: State, s': State, p: Pid) {
    && p in s.puts
    && var put := s.puts[p];
    && (put.phase == Hit || put.phase == DirSynced)
    && var h := sha(put.data);
    && (d.shardFirst ==> Anchored(s, h))
    && s' == s.(puts := s.puts - {p}, rows := if h in s.rows then s.rows else s.rows[h := |put.data|])
  }

  // Put returns an error or its process is killed; the directory entries stay as they are.
  predicate Abandon(d: Discipline, s: State, s': State, p: Pid) {
    && p in s.puts
    && (d.finishRename ==> s.puts[p].phase != Renamed)
    && s' == s.(puts := s.puts - {p})
  }

  predicate GcDelete(sha: Sha, d: Discipline, s: State, s': State, g: Pid, h: Hash) {
    && g !in s.gcs && h in s.rows
    && (d.gcApart ==> !PutActive(sha, s, h, {}))
    && s' == s.(rows := s.rows - {h}, gcs := s.gcs[g := h])
  }

  predicate GcRemove(s: State, s': State, g: Pid) {
    g in s.gcs && s' == s.(files := s.files - {s.gcs[g]}, gcs := s.gcs - {g})
  }

  predicate GcAbandon(s: State, s': State, g: Pid) {
    g in s.gcs && s' == s.(gcs := s.gcs - {g})
  }

  // The operating system writes an entry back in its own time.
  predicate Writeback(s: State, s': State) {
    || (exists dir | dir in s.dirs :: s' == s.(dirs := s.dirs[dir := true]))
    || (exists h | h in s.files :: s' == s.(files := s.files[h := s.files[h].(durable := true)]))
  }

  // The database keeps what it committed; entries that were not durable may be gone, and with a
  // directory goes everything below it.
  predicate PowerLoss(s: State, s': State) {
    && s'.rows == s.rows && s'.puts == map[] && s'.gcs == map[]
    && (forall dir | dir in s'.dirs ::
          dir in s.dirs && s'.dirs[dir] && (dir.Leaf? ==> Top(dir.top) in s'.dirs))
    && (forall dir | dir in s.dirs && s.dirs[dir] ::
          (dir.Leaf? ==> Top(dir.top) in s'.dirs) ==> dir in s'.dirs)
    && (forall h | h in s'.files ::
          h in s.files && LeafOf(h) in s'.dirs && s'.files[h] == File(s.files[h].content, true))
    && (forall h | h in s.files && s.files[h].durable && LeafOf(h) in s'.dirs :: h in s'.files)
  }

  ghost predicate PutStep(sha: Sha, d: Discipline, s: State, s': State, p: Pid) {
    || (exists data :: Start(s, s', p, data))
    || Stream(s, s', p)
    || Stat(sha, d, s, s', p)
    || Rename(sha, s, s', p)
    || SyncDir(sha, s, s', p)
    || Record(sha, d, s, s', p)
    || Abandon(d, s, s', p)
  }

  ghost predicate GcStep(sha: Sha, d: Discipline, s: State, s': State, g: Pid) {
    || (exists h :: GcDelete(sha, d, s, s', g, h))
    || GcRemove(s, s', g)
    || GcAbandon(s, s', g)
  }

  ghost predicate Next(sha: Sha, d: Discipline, s: State, s': State) {
    || (exists p :: PutStep(sha, d, s, s', p))
    || (exists g :: GcStep(sha, d, s, s', g))
    || Writeback(s, s')
    || PowerLoss(s, s')
  }

  // A row is backed when its file is complete, is the content it is named after, and survives
  // a power loss together with the directories above it.
  predicate Backed(sha: Sha, s: State, h: Hash) {
    && h in s.rows && h in s.files
    && s.files[h].durable && Anchored(s, h)
    && sha(s.files[h].content) == h
    && |s.files[h].content| == s.rows[h]
  }

  predicate Safe(sha: Sha, s: State) {
    forall h | h in s.rows :: Backed(sha, s, h)
  }

  predicate FilesNamed(sha: Sha, s: State) {
    forall h | h in s.files :: sha(s.files[h].content) == h
  }

  predicate Init(sha: Sha, s: State) {
    && Safe(sha, s) && FilesNamed(sha, s)
    && (forall h | h in s.files :: s.files[h].durable && LeafOf(h) in s.dirs)
    && (forall dir | dir in s.dirs && dir.Leaf? :: Top(dir.top) in s.dirs)
    && s.puts == map[] && s.gcs == map[]
  }

  ghost predicate StepAt(sha: Sha, d: Discipline, run: seq<State>, i: nat)
    requires i + 1 < |run|
  {
    Next(sha, d, run[i], run[i + 1])
  }

  ghost predicate IsRun(sha: Sha, d: Discipline, run: seq<State>) {
    && run != []
    && Init(sha, run[0])
    && forall i | 0 <= i < |run| - 1 :: StepAt(sha, d, run, i)
  }

  ghost predicate AlwaysSafe(sha: Sha, d: Discipline) {
    forall run, i | IsRun(sha, d, run) && 0 <= i < |run| :: Safe(sha, run[i])
  }

  const Full := Discipline(true, true, true, true)

  // ---------------------------------------------------------------------------
  // Under the full discipline every reachable state is safe
  // ---------------------------------------------------------------------------

  predicate PutOk(sha: Sha, s: State, put: Put) {
    var h := sha(put.data);
    && (put.phase == Writing ==> put.temp <= put.data)
    && (put.phase != Writing ==> put.temp == put.data)
    && match put.phase
       case Writing => true
       case Synced => true
       case Hit => h in s.files && s.files[h].durable
       case Miss => h !in s.files && h !in s.rows
       case Renamed => h in s.files && h !in s.rows
       case DirSynced => h in s.files && s.files[h].durable
  }

  predicate PutsOk(sha: Sha, s: State) {
    forall p | p in s.puts :: PutOk(sha, s, s.puts[p])
  }

  predicate WillSync(sha: Sha, s: State, p: Pid, h: Hash) {
    p in s.puts && s.puts[p].phase == Renamed && sha(s.puts[p].data) == h
  }

  // An entry that is not durable yet belongs to a Put that will sync it.
  ghost predicate PendingSync(sha: Sha, s: State) {
    forall h | h in s.files && !s.files[h].durable :: exists p :: WillSync(sha, s, p, h)
  }

  predicate PutsApart(sha: Sha, s: State) {
    forall p, q | p in s.puts && q in s.puts && p != q && Critical(s.puts[p]) && Critical(s.puts[q]) ::
      sha(s.puts[p].data) != sha(s.puts[q].data)
  }

  predicate GcsApart(sha: Sha, s: State) {
    forall g, p | g in s.gcs && p in s.puts && Critical(s.puts[p]) :: sha(s.puts[p].data) != s.gcs[g]
  }

  predicate GcsRowless(s: State) {
    forall g | g in s.gcs :: s.gcs[g] !in s.rows
  }

  ghost predicate Inv(sha: Sha, s: State) {
    && Safe(sha, s) && FilesNamed(sha, s)
    && PutsOk(sha, s) && PendingSync(sha, s)
    && PutsApart(sha, s) && GcsApart(sha, s) && GcsRowless(s)
  }

  // A Put outside its critical section changes nothing but itself.
  lemma StreamInv(sha: Sha, s: State, p: Pid, put: Put)
    requires Inv(sha, s) && !Critical(put) && PutOk(sha, s, put)
    requires p in s.puts ==> !Critical(s.puts[p])
    ensures Inv(sha, WithPut(s, p, put))
  {
    var s' := WithPut(s, p, put);
    forall q | q in s'.puts
      ensures PutOk(sha, s', s'.puts[q])
    {
      assert q != p ==> PutOk(sha, s, s.puts[q]);
    }
    forall h | h in s'.rows
      ensures Backed(sha, s', h)
    {
      assert Backed(sha, s, h);
    }
    forall h | h in s'.files && !s'.files[h].durable
      ensures exists q :: WillSync(sha, s', q, h)
    {
      var q :| WillSync(sha, s, q, h);
      assert WillSync(sha, s', q, h);
    }
  }

  lemma StatInv(sha: Sha, s: State, s': State, p: Pid)
    requires Inv(sha, s) && Stat(sha, Full, s, s', p)
    ensures Inv(sha, s')
  {
    var h := sha(s.puts[p].data);
    assert PutOk(sha, s, s.puts[p]);
    forall q
      ensures !WillSync(sha, s, q, h)
    {
      assert !PutActive(sha, s, h, {p});
    }
    assert h in s.rows ==> Backed(sha, s, h);
    assert PutOk(sha, s', s'.puts[p]);
    forall h | h in s'.files && !s'.files[h].durable
      ensures exists q :: WillSync(sha, s', q, h)
    {
      var q :| WillSync(sha, s, q, h);
      assert WillSync(sha, s', q, h);
    }
    forall q | q in s.puts && q != p && Critical(s.puts[q])
      ensures sha(s.puts[q].data) != h
    {
      assert !PutActive(sha, s, h, {p});
    }
    forall g | g in s.gcs
      ensures s.gcs[g] != h
    {
      assert !GcActive(s, h);
    }
  }

  lemma RenameInv(sha: Sha, s: State, s': State, p: Pid)
    requires Inv(sha, s) && Rename(sha, s, s', p)
    ensures Inv(sha, s')
  {
    var put := s.puts[p];
    var h := sha(put.data);
    assert PutOk(sha, s, put);
    assert WillSync(sha, s', p, h);
    forall g | g in s'.files && !s'.files[g].durable
      ensures exists q :: WillSync(sha, s', q, g)
    {
      if g != h {
        var q :| WillSync(sha, s, q, g);
        assert WillSync(sha, s', q, g);
      }
    }
    forall g | g in s'.rows
      ensures Backed(sha, s', g)
    {
      assert Backed(sha, s, g);
    }
    forall q | q in s'.puts
      ensures PutOk(sha, s', s'.puts[q])
    {
      assert PutOk(sha, s, s.puts[q]);
    }
  }

  lemma SyncDirInv(sha: Sha, s: State, s': State, p: Pid)
    requires Inv(sha, s) && SyncDir(sha, s, s', p)
    ensures Inv(sha, s')
  {
    var put := s.puts[p];
    var h := sha(put.data);
    assert PutOk(sha, s, put);
    forall g | g in s'.files && !s'.files[g].durable
      ensures exists q :: WillSync(sha, s', q, g)
    {
      var q :| WillSync(sha, s, q, g);
      assert WillSync(sha, s', q, g);
    }
    forall g | g in s'.rows
      ensures Backed(sha, s', g)
    {
      assert Backed(sha, s, g);
    }
    forall q | q in s'.puts
      ensures PutOk(sha, s', s'.puts[q])
    {
      assert PutOk(sha, s, s.puts[q]);
    }
  }

  lemma RecordInv(sha: Sha, s: State, s': State, p: Pid)
    requires CollisionFree(sha)
    requires Inv(sha, s) && Record(sha, Full, s, s', p)
    ensures Inv(sha, s')
  {
    var put := s.puts[p];
    var h := sha(put.data);
    assert PutOk(sha, s, put);
    assert s.files[h].content == put.data;
    forall g | g in s'.rows
      ensures Backed(sha, s', g)
    {
      assert g in s.rows ==> Backed(sha, s, g);
    }
    forall q | q in s'.puts
      ensures PutOk(sha, s', s'.puts[q])
    {
      assert PutOk(sha, s, s.puts[q]);
    }
    forall g | g in s'.files && !s'.files[g].durable
      ensures exists q :: WillSync(sha, s', q, g)
    {
      var q :| WillSync(sha, s, q, g);
      assert WillSync(sha, s', q, g);
    }
  }

  lemma AbandonInv(sha: Sha, s: State, s': State, p: Pid)
    requires Inv(sha, s) && Abandon(Full, s, s', p)
    ensures Inv(sha, s')
  {
    forall g | g in s'.files && !s'.files[g].durable
      ensures exists q :: WillSync(sha, s', q, g)
    {
      var q :| WillSync(sha, s, q, g);
      assert WillSync(sha, s', q, g);
    }
    forall q | q in s'.puts
      ensures PutOk(sha, s', s'.puts[q])
    {
      assert PutOk(sha, s, s.puts[q]);
    }
  }

  lemma GcDeleteInv(sha: Sha, s: State, s': State, g: Pid, h: Hash)
    requires Inv(sha, s) && GcDelete(sha, Full, s, s', g, h)
    ensures Inv(sha, s')
  {
    forall q | q in s'.puts
      ensures PutOk(sha, s', s'.puts[q])
    {
      assert PutOk(sha, s, s.puts[q]);
    }
    forall f | f in s'.files && !s'.files[f].durable
      ensures exists q :: WillSync(sha, s', q, f)
    {
      var q :| WillSync(sha, s, q, f);
      assert WillSync(sha, s', q, f);
    }
    forall f | f in s'.rows
      ensures Backed(sha, s', f)
    {
      assert Backed(sha, s, f);
    }
    forall q | q in s.puts && Critical(s.puts[q])
      ensures sha(s.puts[q].data) != h
    {
      assert !PutActive(sha, s, h, {});
    }
  }

  lemma GcRemoveInv(sha: Sha, s: State, s': State, g: Pid)
    requires Inv(sha, s) && GcRemove(s, s', g)
    ensures Inv(sha, s')
  {
    forall f | f in s'.rows
      ensures Backed(sha, s', f)
    {
      assert Backed(sha, s, f);
    }
    forall q | q in s'.puts
      ensures PutOk(sha, s', s'.puts[q])
    {
      assert PutOk(sha, s, s.puts[q]);
    }
    forall f | f in s'.files && !s'.files[f].durable
      ensures exists q :: WillSync(sha, s', q, f)
    {
      var q :| WillSync(sha, s, q, f);
      assert WillSync(sha, s', q, f);
    }
  }

  lemma GcAbandonInv(sha: Sha, s: State, s': State, g: Pid)
    requires Inv(sha, s) && GcAbandon(s, s', g)
    ensures Inv(sha, s')
  {
    forall f | f in s'.files && !s'.files[f].durable
      ensures exists q :: WillSync(sha, s', q, f)
    {
      var q :| WillSync(sha, s, q, f);
      assert WillSync(sha, s', q, f);
    }
    forall q | q in s'.puts
      ensures PutOk(sha, s', s'.puts[q])
    {
      assert PutOk(sha, s, s.puts[q]);
    }
  }

  lemma WritebackInv(sha: Sha, s: State, s': State)
    requires Inv(sha, s) && Writeback(s, s')
    ensures Inv(sha, s')
  {
    WritebackIsSturdier(s, s');
    SturdierInv(sha, s, s');
  }

  // The same entries, some of which may have become durable.
  predicate Sturdier(s: State, s': State) {
    && s'.rows == s.rows && s'.puts == s.puts && s'.gcs == s.gcs
    && s'.dirs.Keys == s.dirs.Keys && s'.files.Keys == s.files.Keys
    && (forall dir | dir in s.dirs && s.dirs[dir] :: s'.dirs[dir])
    && (forall h | h in s.files ::
          s'.files[h].content == s.files[h].content && (s.files[h].durable ==> s'.files[h].durable))
  }

  lemma WritebackIsSturdier(s: State, s': State)
    requires Writeback(s, s')
    ensures Sturdier(s, s')
  {
  }

  lemma SturdierInv(sha: Sha, s: State, s': State)
    requires Inv(sha, s) && Sturdier(s, s')
    ensures Inv(sha, s')
  {
    forall h | h in s'.rows
      ensures Backed(sha, s', h)
    {
      assert Backed(sha, s, h);
    }
    forall q | q in s'.puts
      ensures PutOk(sha, s', s'.puts[q])
    {
      assert PutOk(sha, s, s.puts[q]);
    }
    forall h | h in s'.files && !s'.files[h].durable
      ensures exists q :: WillSync(sha, s', q, h)
    {
      var q :| WillSync(sha, s, q, h);
      assert WillSync(sha, s', q, h);
    }
  }

  lemma PowerLossInv(sha: Sha, s: State, s': State)
    requires Inv(sha, s) && PowerLoss(s, s')
    ensures Inv(sha, s')
  {
    forall h | h in s'.rows
      ensures Backed(sha, s', h)
    {
      assert Backed(sha, s, h);
    }
  }

  lemma GcStepInv(sha: Sha, s: State, s': State, g: Pid)
    requires Inv(sha, s) && GcStep(sha, Full, s, s', g)
    ensures Inv(sha, s')
  {
    if h :| GcDelete(sha, Full, s, s', g, h) {
      GcDeleteInv(sha, s, s', g, h);
    } else if GcRemove(s, s', g) {
      GcRemoveInv(sha, s, s', g);
    } else {
      GcAbandonInv(sha, s, s', g);
    }
  }

  lemma WritingInv(sha: Sha, s: State, s': State, p: Pid)
    requires Inv(sha, s) && (Stream(s, s', p) || exists data :: Start(s, s', p, data))
    ensures Inv(sha, s')
  {
    if Stream(s, s', p) {
      assert PutOk(sha, s, s.puts[p]);
      StreamInv(sha, s, p, s'.puts[p]);
    } else {
      var data :| Start(s, s', p, data);
      StreamInv(sha, s, p, Put(data, [], Writing));
    }
  }

  lemma PutStepInv(sha: Sha, s: State, s': State, p: Pid)
    requires CollisionFree(sha) && Inv(sha, s) && PutStep(sha, Full, s, s', p)
    ensures Inv(sha, s')
  {
    if Stat(sha, Full, s, s', p) {
      StatInv(sha, s, s', p);
    } else if Rename(sha, s, s', p) {
      RenameInv(sha, s, s', p);
    } else if SyncDir(sha, s, s', p) {
      SyncDirInv(sha, s, s', p);
    } else if Record(sha, Full, s, s', p) {
      RecordInv(sha, s, s', p);
    } else if Abandon(Full, s, s', p) {
      AbandonInv(sha, s, s', p);
    } else {
      WritingInv(sha, s, s', p);
    }
  }

  lemma StepInv(sha: Sha, s: State, s': State)
    requires CollisionFree(sha) && Inv(sha, s) && Next(sha, Full, s, s')
    ensures Inv(sha, s')
  {
    if PowerLoss(s, s') {
      PowerLossInv(sha, s, s');
    } else if Writeback(s, s') {
      WritebackInv(sha, s, s');
    } else if g :| GcStep(sha, Full, s, s', g) {
      GcStepInv(sha, s, s', g);
    } else {
      var p :| PutStep(sha, Full, s, s', p);
      PutStepInv(sha, s, s', p);
    }
  }

  lemma {:induction false} RunInv(sha: Sha, run: seq<State>, n: nat)
    requires CollisionFree(sha) && IsRun(sha, Full, run) && n < |run|
    ensures Inv(sha, run[n])
  {
    if n > 0 {
      RunInv(sha, run, n - 1);
      assert StepAt(sha, Full, run, n - 1);
      StepInv(sha, run[n - 1], run[n]);
    }
  }

  /** Under the full discipline every row of every reachable state, in particular after a power
      loss at any point, has its complete and durable file. */
  lemma RowsAreBacked(sha: Sha, run: seq<State>, n: nat)
    requires CollisionFree(sha) && IsRun(sha, Full, run) && n < |run|
    ensures Safe(sha, run[n])
  {
    RunInv(sha, run, n);
  }

  // ---------------------------------------------------------------------------
  // Dropping any one rule admits a run that loses a file
  // ---------------------------------------------------------------------------

  // A committed row with no file at all.
  predicate Lost(s: State, h: Hash) {
    h in s.rows && h !in s.files
  }

  lemma Extend(sha: Sha, d: Discipline, run: seq<State>, last: State, s: State)
    requires IsRun(sha, d, run) && run[|run| - 1] == last && Next(sha, d, last, s)
    ensures IsRun(sha, d, run + [s])
    ensures (run + [s])[|run + [s]| - 1] == s
  {
    forall i | 0 <= i < |run|
      ensures StepAt(sha, d, run + [s], i)
    {
      assert i == |run| - 1 || StepAt(sha, d, run, i);
    }
  }

  // The empty message, stored by process 1 and 2.
  const Blank := Put([], [], Writing)

  // No blobs; the shard of h is in place, durably.
  function Empty(h: Hash): State {
    State(map[], map[], map[], map[], Shard(h))
  }

  function Shard(h: Hash): map<Dir, bool> {
    map[TopOf(h) := true, LeafOf(h) := true]
  }

  // A Put of the empty message brought from its start to just before its stat.
  lemma Prepared(sha: Sha, d: Discipline, run: seq<State>, last: State, p: Pid) returns (run': seq<State>)
    requires IsRun(sha, d, run) && run[|run| - 1] == last && p !in last.puts
    ensures IsRun(sha, d, run') && run'[|run'| - 1] == WithPut(last, p, Blank.(phase := Synced))
  {
    var a := WithPut(last, p, Blank);
    var b := WithPut(last, p, Blank.(phase := Synced));
    assert Start(last, a, p, []) && PutStep(sha, d, last, a, p);
    Extend(sha, d, run, last, a);
    assert b == WithPut(a, p, Blank.(phase := Synced));
    assert Stream(a, b, p) && PutStep(sha, d, a, b, p);
    Extend(sha, d, run + [a], a, b);
    run' := run + [a] + [b];
  }

  // Process 1 puts the empty message up to and including its rename.
  lemma RenamedOnce(sha: Sha, d: Discipline) returns (run: seq<State>, s: State)
    ensures IsRun(sha, d, run) && run[|run| - 1] == s
    ensures s == State(map[], map[sha([]) := File([], false)], map[1 := Blank.(phase := Renamed)], map[], Shard(sha([])))
  {
    var empty := Empty(sha([]));
    assert Init(sha, empty);
    run := Prepared(sha, d, [empty], empty, 1);
    var s0 := run[|run| - 1];
    var s1 := WithPut(s0, 1, Blank.(phase := Miss));
    assert Stat(sha, d, s0, s1, 1) && PutStep(sha, d, s0, s1, 1);
    Extend(sha, d, run, s0, s1);
    s := WithPut(s1, 1, Blank.(phase := Renamed)).(files := map[sha([]) := File([], false)]);
    assert Rename(sha, s1, s, 1) && PutStep(sha, d, s1, s, 1);
    Extend(sha, d, run + [s1], s1, s);
    run := run + [s1] + [s];
    assert s.puts == map[1 := Blank.(phase := Renamed)];
  }

  // A second Put finds the entry, records the row, and then the power fails.
  lemma RecordThenLose(sha: Sha, d: Discipline, run: seq<State>, s: State) returns (run': seq<State>)
    requires IsRun(sha, d, run) && run[|run| - 1] == s
    requires s.rows == map[] && s.files == map[sha([]) := File([], false)] && s.gcs == map[] && 2 !in s.puts
    requires s.dirs == Shard(sha([]))
    requires d.putsApart ==> s.puts == map[]
    ensures IsRun(sha, d, run') && Lost(run'[|run'| - 1], sha([]))
  {
    var h := sha([]);
    run' := Prepared(sha, d, run, s, 2);
    var a := run'[|run'| - 1];
    var b := WithPut(a, 2, Blank.(phase := Hit));
    assert Stat(sha, d, a, b, 2) && PutStep(sha, d, a, b, 2);
    Extend(sha, d, run', a, b);
    var c := b.(puts := b.puts - {2}, rows := map[h := 0]);
    assert Record(sha, d, b, c, 2) && PutStep(sha, d, b, c, 2);
    Extend(sha, d, run' + [b], b, c);
    var e := State(map[h := 0], map[], map[], map[], Shard(h));
    assert PowerLoss(c, e);
    Extend(sha, d, run' + [b] + [c], c, e);
    run' := run' + [b] + [c] + [e];
  }

  /** Two overlapping Puts of the same bytes: the second one records the row before the first
      one's directory fsync. */
  lemma OverlappingPutsLose(sha: Sha, d: Discipline) returns (run: seq<State>)
    requires !d.putsApart
    ensures IsRun(sha, d, run) && Lost(run[|run| - 1], sha([]))
  {
    var r, s := RenamedOnce(sha, d);
    run := RecordThenLose(sha, d, r, s);
  }

  /** A Put that ends between its rename and its directory fsync, followed, without any overlap,
      by another Put of the same bytes. */
  lemma AbandonedRenameLoses(sha: Sha, d: Discipline) returns (run: seq<State>)
    requires !d.finishRename
    ensures IsRun(sha, d, run) && Lost(run[|run| - 1], sha([]))
  {
    var r, s := RenamedOnce(sha, d);
    var t := s.(puts := map[]);
    assert s.puts - {1} == map[];
    assert Abandon(d, s, t, 1) && PutStep(sha, d, s, t, 1);
    Extend(sha, d, r, s, t);
    run := RecordThenLose(sha, d, r + [t], t);
  }

  /** A Put that finds the file of a blob the collector is about to remove: the collector deletes
      the row and the file, and the Put then records a row for a file that is gone. */
  lemma OverlappingGcLoses(sha: Sha, d: Discipline) returns (run: seq<State>)
    requires !d.gcApart
    ensures IsRun(sha, d, run) && Lost(run[|run| - 1], sha([]))
  {
    var h := sha([]);
    var s0 := State(map[h := 0], map[h := File([], true)], map[], map[], Shard(h));
    assert Init(sha, s0);
    run := Prepared(sha, d, [s0], s0, 1);
    var a := run[|run| - 1];
    var b := WithPut(a, 1, Blank.(phase := Hit));
    assert Stat(sha, d, a, b, 1) && PutStep(sha, d, a, b, 1);
    Extend(sha, d, run, a, b);
    var c := b.(rows := b.rows - {h}, gcs := map[9 := h]);
    assert GcDelete(sha, d, b, c, 9, h) && GcStep(sha, d, b, c, 9);
    Extend(sha, d, run + [b], b, c);
    var e := c.(files := c.files - {h}, gcs := c.gcs - {9});
    assert GcRemove(c, e, 9) && GcStep(sha, d, c, e, 9);
    Extend(sha, d, run + [b] + [c], c, e);
    var f := e.(puts := e.puts - {1}, rows := e.rows[h := 0]);
    assert Record(sha, d, e, f, 1) && PutStep(sha, d, e, f, 1);
    Extend(sha, d, run + [b] + [c] + [e], e, f);
    run := run + [b] + [c] + [e] + [f];
  }

  // Process 1 renames the first blob of a shard into directories it has just made.
  lemma FreshShard(sha: Sha, d: Discipline) returns (run: seq<State>, s: State)
    ensures IsRun(sha, d, run) && run[|run| - 1] == s
    ensures s == State(map[], map[sha([]) := File([], false)], map[1 := Blank.(phase := Renamed)], map[],
                       map[TopOf(sha([])) := false, LeafOf(sha([])) := false])
  {
    var h := sha([]);
    var s0 := State(map[], map[], map[], map[], map[]);
    assert Init(sha, s0);
    run := Prepared(sha, d, [s0], s0, 1);
    var a := run[|run| - 1];
    var b := WithPut(a, 1, Blank.(phase := Miss)).(dirs := MadeDirs(map[], h));
    assert Stat(sha, d, a, b, 1) && PutStep(sha, d, a, b, 1);
    Extend(sha, d, run, a, b);
    s := WithPut(b, 1, Blank.(phase := Renamed)).(files := map[h := File([], false)]);
    assert Rename(sha, b, s, 1) && PutStep(sha, d, b, s, 1);
    Extend(sha, d, run + [b], b, s);
    run := run + [b] + [s];
    assert s.puts == map[1 := Blank.(phase := Renamed)];
    assert s.dirs == map[TopOf(h) := false, LeafOf(h) := false];
  }

  /** One complete Put, alone, of the first blob of a shard: nothing overlaps and nothing is cut
      short, yet a power loss takes the new directories and the file with them. */
  lemma LonePutLoses(sha: Sha, d: Discipline) returns (run: seq<State>)
    requires !d.shardFirst
    ensures IsRun(sha, d, run) && Lost(run[|run| - 1], sha([]))
  {
    var h := sha([]);
    var r, c := FreshShard(sha, d);
    var e := WithPut(c, 1, Blank.(phase := DirSynced)).(files := map[h := File([], true)]);
    assert c.files[h := c.files[h].(durable := true)] == e.files;
    assert SyncDir(sha, c, e, 1) && PutStep(sha, d, c, e, 1);
    Extend(sha, d, r, c, e);
    var f := e.(puts := e.puts - {1}, rows := map[h := 0]);
    assert Record(sha, d, e, f, 1) && PutStep(sha, d, e, f, 1);
    Extend(sha, d, r + [e], e, f);
    var g := State(map[h := 0], map[], map[], map[], map[]);
    assert PowerLoss(f, g);
    Extend(sha, d, r + [e] + [f], f, g);
    run := r + [e] + [f] + [g];
  }

  /** Rows are always backed by durable, complete files if and only if all four rules hold. */
  lemma SafeIffDisciplined(sha: Sha, d: Discipline)
    requires CollisionFree(sha)
    ensures AlwaysSafe(sha, d) <==> d.putsApart && d.gcApart && d.finishRename && d.shardFirst
  {
    if d == Full {
      forall run, i | IsRun(sha, d, run) && 0 <= i < |run|
        ensures Safe(sha, run[i])
      {
        RowsAreBacked(sha, run, i);
      }
    } else {
      var run: seq<State>;
      if !d.putsApart {
        run := OverlappingPutsLose(sha, d);
      } else if !d.gcApart {
        run := OverlappingGcLoses(sha, d);
      } else if !d.finishRename {
        run := AbandonedRenameLoses(sha, d);
      } else {
        run := LonePutLoses(sha, d);
      }
      assert !Backed(sha, run[|run| - 1], sha([]));
      assert !Safe(sha, run[|run| - 1]);
    }
  }
}
