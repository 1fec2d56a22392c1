/** The directory of internal/filecache/filecache.go under many processes at once: any
    interleaving of Puts, Gets and sweeps, with any process dying between two steps.

    `puts`, `complete` and `mixed` remember what happened: which Put created each file, which
    files were written to the end and closed, and which entries a reused staged name can lead
    to somebody else's file. No step depends on them. */
module SharedCache {
  import opened FileCache

  datatype Put = Put(key: string, data: string)

  /** What a process is in the middle of. A writer knows its staged name and holds the file it
      created; a reader holds the file it opened. */
  datatype Proc =
    | Writing(put: Put, tmp: Name, ino: nat, wrote: nat)
    | Closed(put: Put, tmp: Name, ino: nat)
    | Failed(tmp: Name)
    | Renamed
    | Sweeping(now: int, maxAge: int, todo: set<Name>)
    | Removing(now: int, maxAge: int, todo: set<Name>, name: Name)
    | Reading(key: string, ino: nat, got: string)

  predicate IsWriter(p: Proc) { p.Writing? || p.Closed? }

  /** A hit: the bytes read decode. */
  datatype Hit = Hit(key: string, ino: nat, got: string)

  /** `dir` names files, `files` holds them: a file without a name lives on while it is open. */
  datatype State = State(
    dir: map<Name, nat>, files: map<nat, File>, procs: map<nat, Proc>, clock: int, hits: seq<Hit>,
    puts: map<nat, Put>, complete: set<nat>, mixed: set<(Name, nat)>)

  datatype Step =
    | Create(pid: nat, put: Put, tmp: Name, ino: nat)
    | WriteSome(pid: nat, n: nat)
    | Close(pid: nat)
    | Fail(pid: nat)
    | CleanUp(pid: nat)
    | Rename(pid: nat)
    | StartSweep(pid: nat, maxAge: int, listing: set<Name>)
    | Inspect(pid: nat, name: Name)
    | Remove(pid: nat)
    | Open(pid: nat, key: string)
    | ReadSome(pid: nat, n: nat)
    | Finish(pid: nat)
    | Die(pid: nat)
    | Wait(seconds: nat)

  const START := State(map[], map[], map[], 0, [], map[], {}, {})

  /** When the operating system lets a step happen. Staged names are new to the directory, files
      are new, and a listing may be any set of names. */
  predicate Enabled(s: State, step: Step) {
    match step
    case Create(pid, _, tmp, ino) => pid !in s.procs && tmp.Staged? && tmp !in s.dir && ino !in s.files
    case WriteSome(pid, n) =>
      pid in s.procs && s.procs[pid].Writing? && s.procs[pid].wrote + n <= |s.procs[pid].put.data|
    case Close(pid) => pid in s.procs && s.procs[pid].Writing? && s.procs[pid].wrote == |s.procs[pid].put.data|
    case Fail(pid) => pid in s.procs && IsWriter(s.procs[pid])
    case CleanUp(pid) => pid in s.procs && s.procs[pid].Failed?
    case Rename(pid) => pid in s.procs && s.procs[pid].Closed?
    case StartSweep(pid, _, _) => pid in s.procs && s.procs[pid].Renamed?
    case Inspect(pid, name) => pid in s.procs && s.procs[pid].Sweeping? && name in s.procs[pid].todo
    case Remove(pid) => pid in s.procs && s.procs[pid].Removing?
    case Open(pid, _) => pid !in s.procs
    case ReadSome(pid, n) =>
      pid in s.procs && s.procs[pid].Reading? && s.procs[pid].ino in s.files
      && |s.procs[pid].got| + n <= |s.files[s.procs[pid].ino].data|
    case Finish(pid) =>
      pid in s.procs && s.procs[pid].Reading? && s.procs[pid].ino in s.files
      && |s.procs[pid].got| == |s.files[s.procs[pid].ino].data|
    case Die(pid) => pid in s.procs
    case Wait(_) => true
  }

  /** The entries whose Puts hold the staged name without having renamed or cleaned it up. */
  function HeldFor(env: Env, s: State, tmp: Name): set<Name> {
    set q | q in s.procs && IsWriter(s.procs[q]) && s.procs[q].tmp == tmp :: EntryPath(env, s.procs[q].put.key)
  }

  function Mixing(entries: set<Name>, ino: nat): set<(Name, nat)> { set e | e in entries :: (e, ino) }

  function Apply(env: Env, s: State, step: Step): State
    requires Enabled(s, step)
  {
    match step
    case Create(pid, put, tmp, ino) =>
      s.(dir := s.dir[tmp := ino], files := s.files[ino := File("", s.clock)],
         procs := s.procs[pid := Writing(put, tmp, ino, 0)],
         puts := s.puts[ino := put], mixed := s.mixed + Mixing(HeldFor(env, s, tmp), ino))
    case WriteSome(pid, n) =>
      var p := s.procs[pid];
      s.(files := s.files[p.ino := File(p.put.data[..p.wrote + n], s.clock)],
         procs := s.procs[pid := p.(wrote := p.wrote + n)])
    case Close(pid) =>
      var p := s.procs[pid];
      s.(procs := s.procs[pid := Closed(p.put, p.tmp, p.ino)], complete := s.complete + {p.ino})
    case Fail(pid) => s.(procs := s.procs[pid := Failed(s.procs[pid].tmp)])
    case CleanUp(pid) => s.(dir := s.dir - {s.procs[pid].tmp}, procs := s.procs - {pid})
    case Rename(pid) =>
      var p := s.procs[pid];
      if p.tmp in s.dir then
        s.(dir := (s.dir - {p.tmp})[EntryPath(env, p.put.key) := s.dir[p.tmp]], procs := s.procs[pid := Renamed])
      else s.(procs := s.procs[pid := Failed(p.tmp)])
    case StartSweep(pid, maxAge, listing) => s.(procs := s.procs[pid := Sweeping(s.clock, maxAge, listing)])
    case Inspect(pid, name) =>
      var p := s.procs[pid];
      if name in s.dir && s.dir[name] in s.files && Stale(name, s.files[s.dir[name]].mtime, p.now, p.maxAge) then
        s.(procs := s.procs[pid := Removing(p.now, p.maxAge, p.todo - {name}, name)])
      else s.(procs := s.procs[pid := Sweeping(p.now, p.maxAge, p.todo - {name})])
    case Remove(pid) =>
      var p := s.procs[pid];
      s.(dir := s.dir - {p.name}, procs := s.procs[pid := Sweeping(p.now, p.maxAge, p.todo)])
    case Open(pid, key) =>
      var path := EntryPath(env, key);
      if path in s.dir then s.(procs := s.procs[pid := Reading(key, s.dir[path], "")]) else s
    case ReadSome(pid, n) =>
      var p := s.procs[pid];
      s.(procs := s.procs[pid := p.(got := p.got + s.files[p.ino].data[|p.got|..|p.got| + n])])
    case Finish(pid) =>
      var p := s.procs[pid];
      s.(procs := s.procs - {pid},
         hits := if env.decode(p.got).Some? then s.hits + [Hit(p.key, p.ino, p.got)] else s.hits)
    case Die(pid) => s.(procs := s.procs - {pid})
    case Wait(seconds) => s.(clock := s.clock + seconds)
  }

  // ---------------------------------------------------------- the invariant

  /** The file is the complete one of a Put for this entry. */
  predicate Rightful(env: Env, s: State, path: Name, ino: nat) {
    ino in s.complete && ino in s.puts && EntryPath(env, s.puts[ino].key) == path
  }

  /** What a name or a reader may lead to. */
  predicate Leads(env: Env, s: State, path: Name, ino: nat) {
    ino in s.files && (Rightful(env, s, path, ino) || (path, ino) in s.mixed)
  }

  ghost predicate FilesOk(s: State) {
    && s.files.Keys == s.puts.Keys && s.complete <= s.files.Keys
    && (forall i :: i in s.files ==> s.files[i].data <= s.puts[i].data)
    && (forall i :: i in s.complete ==> s.files[i].data == s.puts[i].data)
    && (forall i :: i in s.files ==> s.files[i].mtime <= s.clock)
    && (forall m :: m in s.mixed ==> m.1 in s.files)
  }

  ghost predicate DirOk(env: Env, s: State) {
    forall n :: n in s.dir ==> s.dir[n] in s.files && (n.Entry? ==> Leads(env, s, n, s.dir[n]))
  }

  ghost predicate ProcOk(env: Env, s: State, p: Proc) {
    match p
    case Writing(put, tmp, ino, wrote) =>
      && HolderOk(env, s, put, tmp, ino) && wrote <= |put.data| && s.files[ino].data == put.data[..wrote]
    case Closed(put, tmp, ino) => HolderOk(env, s, put, tmp, ino) && ino in s.complete
    case Failed(tmp) => tmp.Staged?
    case Renamed => true
    case Sweeping(now, _, _) => now <= s.clock
    case Removing(now, _, _, _) => now <= s.clock
    case Reading(key, ino, got) => Leads(env, s, EntryPath(env, key), ino) && got <= s.files[ino].data
  }

  /** A staged name leads its holder to the holder's own file, unless it was reused. */
  ghost predicate HolderOk(env: Env, s: State, put: Put, tmp: Name, ino: nat) {
    && tmp.Staged? && ino in s.files && ino in s.puts && s.puts[ino] == put
    && (tmp in s.dir ==> s.dir[tmp] == ino || (EntryPath(env, put.key), s.dir[tmp]) in s.mixed)
  }

  ghost predicate ProcsOk(env: Env, s: State) {
    && (forall q :: q in s.procs ==> ProcOk(env, s, s.procs[q]))
    && (forall q, r :: q in s.procs && r in s.procs && q != r && s.procs[q].Writing? && s.procs[r].Writing? ==>
          s.procs[q].ino != s.procs[r].ino)
  }

  /** A hit is all of a rightful file, or some beginning of a file a reused name led to. */
  predicate HitOk(env: Env, s: State, h: Hit) {
    && h.ino in s.puts && h.got <= s.puts[h.ino].data && env.decode(h.got).Some?
    && (var path := EntryPath(env, h.key);
        (Rightful(env, s, path, h.ino) && h.got == s.puts[h.ino].data) || (path, h.ino) in s.mixed)
  }

  ghost predicate HitsOk(env: Env, s: State) { forall i :: 0 <= i < |s.hits| ==> HitOk(env, s, s.hits[i]) }

  ghost predicate Inv(env: Env, s: State) { FilesOk(s) && DirOk(env, s) && ProcsOk(env, s) && HitsOk(env, s) }

  /** History only grows. */
  ghost predicate Grows(s: State, t: State) {
    && s.complete <= t.complete && s.mixed <= t.mixed && s.clock <= t.clock
    && (forall i :: i in s.puts ==> i in t.puts && t.puts[i] == s.puts[i])
    && (forall i :: i in s.files ==> i in t.files)
  }

  // --------------------------------------------------- every step keeps it

  lemma LeadsStays(env: Env, s: State, t: State, path: Name, ino: nat)
    requires Grows(s, t) && Leads(env, s, path, ino)
    ensures Leads(env, t, path, ino)
  {
  }

  lemma StepGrows(env: Env, s: State, step: Step)
    requires Inv(env, s) && Enabled(s, step)
    ensures Grows(s, Apply(env, s, step))
  {
    assert s.files.Keys == s.puts.Keys;
    hide Inv, Apply, Grows;
    if step.Create? || step.WriteSome? || step.Close? { FilesGrow(env, s, step); } else { FilesStay(env, s, step); }
  }

  lemma FilesGrow(env: Env, s: State, step: Step)
    requires s.files.Keys == s.puts.Keys && Enabled(s, step) && (step.Create? || step.WriteSome? || step.Close?)
    ensures Grows(s, Apply(env, s, step))
  {
    hide EntryPath, Mixing, HeldFor;
  }

  lemma FilesStay(env: Env, s: State, step: Step)
    requires Enabled(s, step) && !step.Create? && !step.WriteSome? && !step.Close?
    ensures Grows(s, Apply(env, s, step))
    ensures Apply(env, s, step).files == s.files
  {
    hide EntryPath, Stale;
  }

  lemma HitsStay(env: Env, s: State, t: State)
    requires HitsOk(env, s) && Grows(s, t) && t.hits == s.hits
    ensures HitsOk(env, t)
  {
    hide EntryPath;
  }

  /** A process keeps its promise when the files it looks at have not changed. */
  lemma ProcStays(env: Env, s: State, t: State, p: Proc)
    requires ProcOk(env, s, p) && Grows(s, t)
    requires IsWriter(p) ==> t.files[p.ino].data == s.files[p.ino].data || p.Closed?
    requires IsWriter(p) && p.tmp in t.dir ==>
      (p.tmp in s.dir && t.dir[p.tmp] == s.dir[p.tmp]) || (EntryPath(env, p.put.key), t.dir[p.tmp]) in t.mixed
    requires p.Reading? ==> s.files[p.ino].data <= t.files[p.ino].data
    ensures ProcOk(env, t, p)
  {
    hide EntryPath;
  }

  lemma OthersStay(env: Env, s: State, t: State, pid: nat)
    requires ProcsOk(env, s) && Grows(s, t)
    requires forall q :: q in t.procs && q != pid ==> q in s.procs && t.procs[q] == s.procs[q]
    requires forall q :: q in t.procs && q != pid ==> ProcOk(env, t, t.procs[q])
    requires pid in t.procs ==> ProcOk(env, t, t.procs[pid])
    requires pid in t.procs && t.procs[pid].Writing? ==>
      forall q :: q in t.procs && q != pid && t.procs[q].Writing? ==> t.procs[q].ino != t.procs[pid].ino
    ensures ProcsOk(env, t)
  {
    hide ProcOk;
  }

  /** Losing names, and one process moving on without touching a file. */
  lemma QuietChange(env: Env, s: State, t: State, pid: nat)
    requires Inv(env, s) && Grows(s, t) && FilesOk(t) && t.files == s.files
    requires t.hits == s.hits || HitsOk(env, t)
    requires forall n :: n in t.dir ==> n in s.dir && t.dir[n] == s.dir[n]
    requires forall q :: q in t.procs && q != pid ==> q in s.procs && t.procs[q] == s.procs[q]
    requires pid in t.procs ==> ProcOk(env, t, t.procs[pid]) && !t.procs[pid].Writing?
    ensures Inv(env, t)
  {
    if t.hits == s.hits { HitsStay(env, s, t); }
    forall n | n in t.dir && n.Entry? ensures Leads(env, t, n, t.dir[n]) {
      LeadsStays(env, s, t, n, s.dir[n]);
    }
    forall q | q in t.procs && q != pid ensures ProcOk(env, t, t.procs[q]) {
      assert ProcOk(env, s, s.procs[q]);
      ProcStays(env, s, t, s.procs[q]);
    }
    hide HitsOk, Leads, ProcOk, Grows;
    OthersStay(env, s, t, pid);
  }

  lemma FilesSame(env: Env, s: State, t: State)
    requires Inv(env, s)
    requires t.files == s.files && t.puts == s.puts && t.complete == s.complete && t.mixed == s.mixed
    requires s.clock <= t.clock
    ensures FilesOk(t)
  {
  }

  predicate Quiet(s: State, step: Step)
    requires Enabled(s, step)
  {
    step.Fail? || step.CleanUp? || step.StartSweep? || step.Inspect? || step.Remove? || step.Die?
    || (step.Rename? && s.procs[step.pid].tmp !in s.dir)
  }

  lemma MovedOn(env: Env, s: State, step: Step)
    requires ProcsOk(env, s) && Enabled(s, step) && Quiet(s, step)
    ensures var t := Apply(env, s, step); step.pid in t.procs ==> ProcOk(env, t, t.procs[step.pid])
  {
    assert ProcOk(env, s, s.procs[step.pid]);
    hide Stale, EntryPath, Mixing, HeldFor;
  }

  lemma QuietEffect(env: Env, s: State, step: Step)
    requires Enabled(s, step) && Quiet(s, step)
    ensures var t := Apply(env, s, step);
            && t.files == s.files && t.puts == s.puts && t.complete == s.complete && t.mixed == s.mixed
            && t.hits == s.hits && t.clock == s.clock
            && (forall n :: n in t.dir ==> n in s.dir && t.dir[n] == s.dir[n])
            && (forall q :: q in t.procs && q != step.pid ==> q in s.procs && t.procs[q] == s.procs[q])
            && (step.pid in t.procs ==> !t.procs[step.pid].Writing?)
  {
    hide Stale, EntryPath, Mixing, HeldFor;
  }

  lemma QuietStep(env: Env, s: State, step: Step)
    requires Inv(env, s) && Enabled(s, step) && Quiet(s, step)
    ensures Inv(env, Apply(env, s, step))
  {
    var t := Apply(env, s, step);
    StepGrows(env, s, step);
    MovedOn(env, s, step);
    QuietEffect(env, s, step);
    hide Apply, Quiet, Grows, Inv, ProcOk;
    FilesSame(env, s, t);
    hide FilesOk;
    QuietChange(env, s, t, step.pid);
  }

  lemma WaitKeepsInv(env: Env, s: State, step: Step)
    requires Inv(env, s) && step.Wait?
    ensures Inv(env, Apply(env, s, step))
  {
    var t := Apply(env, s, step);
    StepGrows(env, s, step);
    FilesSame(env, s, t);
    forall q | q in s.procs ensures ProcOk(env, t, s.procs[q]) {
      ProcStays(env, s, t, s.procs[q]);
    }
    hide EntryPath, HitOk;
    HitsStay(env, s, t);
  }

  lemma CreateKeepsInv(env: Env, s: State, step: Step)
    requires Inv(env, s) && step.Create? && Enabled(s, step)
    ensures Inv(env, Apply(env, s, step))
  {
    var t := Apply(env, s, step);
    StepGrows(env, s, step);
    HitsStay(env, s, t);
    hide HitsOk, EntryPath, Grows;
    forall q | q in s.procs ensures ProcOk(env, t, s.procs[q]) {
      CreateSpares(env, s, step, q);
    }
    hide ProcOk;
    OthersStay(env, s, t, step.pid);
  }

  lemma CreateSpares(env: Env, s: State, step: Step, q: nat)
    requires Inv(env, s) && step.Create? && Enabled(s, step) && q in s.procs
    ensures ProcOk(env, Apply(env, s, step), s.procs[q])
  {
    var t, p := Apply(env, s, step), s.procs[q];
    StepGrows(env, s, step);
    assert ProcOk(env, s, p);
    if IsWriter(p) && p.tmp == step.tmp {
      var entry := EntryPath(env, p.put.key);
      assert entry in HeldFor(env, s, step.tmp);
      assert (entry, step.ino) in t.mixed;
    }
    hide Inv, EntryPath, Grows, Mixing, HeldFor;
    ProcStays(env, s, t, p);
  }

  lemma WriteSomeFiles(env: Env, s: State, step: Step)
    requires Inv(env, s) && step.WriteSome? && Enabled(s, step)
    ensures var t, w := Apply(env, s, step), s.procs[step.pid];
            FilesOk(t) && DirOk(env, t) && s.files[w.ino].data <= t.files[w.ino].data
            && ProcOk(env, t, t.procs[step.pid])
  {
    assert ProcOk(env, s, s.procs[step.pid]);
    StepGrows(env, s, step);
    hide HitsOk, EntryPath, Stale, Mixing, HeldFor, ProcsOk;
  }

  lemma WriteSomeKeepsInv(env: Env, s: State, step: Step)
    requires Inv(env, s) && step.WriteSome? && Enabled(s, step)
    ensures Inv(env, Apply(env, s, step))
  {
    var t := Apply(env, s, step);
    StepGrows(env, s, step);
    HitsStay(env, s, t);
    WriteSomeFiles(env, s, step);
    hide HitsOk, FilesOk, DirOk, EntryPath, Grows, Stale, Mixing, HeldFor;
    forall q | q in s.procs && q != step.pid ensures ProcOk(env, t, s.procs[q]) {
      assert ProcOk(env, s, s.procs[q]) && ProcOk(env, s, s.procs[step.pid]);
      ProcStays(env, s, t, s.procs[q]);
    }
    hide ProcOk;
    OthersStay(env, s, t, step.pid);
  }

  lemma CloseKeepsInv(env: Env, s: State, step: Step)
    requires Inv(env, s) && step.Close? && Enabled(s, step)
    ensures Inv(env, Apply(env, s, step))
  {
    var t, w := Apply(env, s, step), s.procs[step.pid];
    StepGrows(env, s, step);
    assert ProcOk(env, s, w) && w.put.data[..|w.put.data|] == w.put.data;
    hide HitsOk, EntryPath, Grows, DirOk, ProcsOk;
    QuietChange(env, s, t, step.pid);
  }

  /** A rename moves a complete file, which no one will write to any more, to its entry, unless
      the staged name was reused. */
  lemma RenameKeepsInv(env: Env, s: State, step: Step)
    requires Inv(env, s) && step.Rename? && Enabled(s, step) && s.procs[step.pid].tmp in s.dir
    ensures Inv(env, Apply(env, s, step))
  {
    var t, w := Apply(env, s, step), s.procs[step.pid];
    StepGrows(env, s, step);
    HitsStay(env, s, t);
    FilesSame(env, s, t);
    assert ProcOk(env, s, w);
    hide HitsOk, FilesOk, EntryPath, Grows;
    forall q | q in s.procs && q != step.pid ensures ProcOk(env, t, s.procs[q]) {
      assert ProcOk(env, s, s.procs[q]);
      ProcStays(env, s, t, s.procs[q]);
    }
    hide ProcOk;
    OthersStay(env, s, t, step.pid);
  }

  lemma OpenKeepsInv(env: Env, s: State, step: Step)
    requires Inv(env, s) && step.Open? && Enabled(s, step)
    ensures Inv(env, Apply(env, s, step))
  {
    var t := Apply(env, s, step);
    StepGrows(env, s, step);
    FilesSame(env, s, t);
    hide HitsOk, FilesOk, EntryPath, Grows, ProcsOk;
    if t != s { QuietChange(env, s, t, step.pid); }
  }

  lemma ReadSomeKeepsInv(env: Env, s: State, step: Step)
    requires Inv(env, s) && step.ReadSome? && Enabled(s, step)
    ensures Inv(env, Apply(env, s, step))
  {
    var t, p := Apply(env, s, step), s.procs[step.pid];
    StepGrows(env, s, step);
    FilesSame(env, s, t);
    assert ProcOk(env, s, p);
    var data := s.files[p.ino].data;
    assert p.got + data[|p.got|..|p.got| + step.n] == data[..|p.got| + step.n];
    hide HitsOk, FilesOk, EntryPath, Grows, ProcsOk, DirOk;
    QuietChange(env, s, t, step.pid);
  }

  lemma FinishKeepsInv(env: Env, s: State, step: Step)
    requires Inv(env, s) && step.Finish? && Enabled(s, step)
    ensures Inv(env, Apply(env, s, step))
  {
    var t, p := Apply(env, s, step), s.procs[step.pid];
    StepGrows(env, s, step);
    FilesSame(env, s, t);
    assert ProcOk(env, s, p) && p.got == s.files[p.ino].data;
    hide EntryPath, ProcsOk, DirOk, Grows;
    if env.decode(p.got).Some? {
      assert HitOk(env, t, Hit(p.key, p.ino, p.got));
    }
    forall i | 0 <= i < |s.hits| ensures HitOk(env, t, s.hits[i]) {
    }
    hide HitOk, FilesOk;
    QuietChange(env, s, t, step.pid);
  }

  /** Every step of every process keeps the invariant, whatever names are handed out. */
  lemma StepIsSafe(env: Env, s: State, step: Step)
    requires Inv(env, s) && Enabled(s, step)
    ensures Inv(env, Apply(env, s, step)) && Grows(s, Apply(env, s, step))
  {
    StepGrows(env, s, step);
    hide Inv, Apply, Grows;
    match step
    case Create(_, _, _, _) => CreateKeepsInv(env, s, step);
    case WriteSome(_, _) => WriteSomeKeepsInv(env, s, step);
    case Close(_) => CloseKeepsInv(env, s, step);
    case Rename(pid) => if s.procs[pid].tmp in s.dir { RenameKeepsInv(env, s, step); } else { QuietStep(env, s, step); }
    case Open(_, _) => OpenKeepsInv(env, s, step);
    case ReadSome(_, _) => ReadSomeKeepsInv(env, s, step);
    case Finish(_) => FinishKeepsInv(env, s, step);
    case Wait(_) => WaitKeepsInv(env, s, step);
    case _ => QuietStep(env, s, step);
  }

  // ---------------------------------------------------------------- runs

  /** The steps happen one after the other from s. */
  ghost predicate Runs(env: Env, s: State, steps: seq<Step>, t: State)
    decreases |steps|
  {
    if steps == [] then s == t
    else Enabled(s, steps[0]) && Runs(env, Apply(env, s, steps[0]), steps[1..], t)
  }

  lemma StartIsSafe(env: Env)
    ensures Inv(env, START)
  {
  }

  /** In every interleaving, whatever staged names are handed out, a hit is a value some Put
      completely wrote for the entry, or a beginning of a file whose creator was given a staged
      name that a Put for the entry still held. */
  lemma {:induction false} EveryHitIsExplained(env: Env, s: State, steps: seq<Step>, t: State)
    requires Inv(env, s) && Runs(env, s, steps, t)
    ensures Inv(env, t) && Grows(s, t)
    ensures forall h :: h in t.hits ==> HitOk(env, t, h)
    decreases |steps|
  {
    hide Apply, Enabled;
    if steps == [] {
      assert Grows(s, t) by { hide Inv; }
    } else {
      StepIsSafe(env, s, steps[0]);
      EveryHitIsExplained(env, Apply(env, s, steps[0]), steps[1..], t);
    }
  }

  /** No step creates a staged file under a name that an unfinished Put still holds. */
  ghost predicate NamesNotReused(env: Env, s: State, steps: seq<Step>)
    decreases |steps|
  {
    steps == [] ||
    (Enabled(s, steps[0]) ==>
       && (steps[0].Create? ==> HeldFor(env, s, steps[0].tmp) == {})
       && NamesNotReused(env, Apply(env, s, steps[0]), steps[1..]))
  }

  lemma {:induction false} NothingMixed(env: Env, s: State, steps: seq<Step>, t: State)
    requires Runs(env, s, steps, t) && NamesNotReused(env, s, steps)
    ensures t.mixed == s.mixed
    decreases |steps|
  {
    if steps != [] {
      var m := Apply(env, s, steps[0]);
      assert m.mixed == s.mixed by { hide Stale, EntryPath, HeldFor; }
      hide Apply, Enabled;
      NothingMixed(env, m, steps[1..], t);
    }
  }

  /** Some Put for this entry completely wrote exactly this. */
  ghost predicate WrittenFor(env: Env, s: State, h: Hit) {
    exists i :: i in s.complete && Rightful(env, s, EntryPath(env, h.key), i) && s.puts[i].data == h.got
  }

  /** In every interleaving of Puts, Gets and sweeps, with processes dying anywhere, a hit is a
      value some Put completely wrote for that entry. */
  lemma NeverAnswersWrongly(env: Env, s: State, steps: seq<Step>, t: State)
    requires Inv(env, s) && s.mixed == {} && Runs(env, s, steps, t) && NamesNotReused(env, s, steps)
    ensures forall h :: h in t.hits ==> WrittenFor(env, t, h)
  {
    hide Runs, NamesNotReused, EntryPath, Inv;
    EveryHitIsExplained(env, s, steps, t);
    NothingMixed(env, s, steps, t);
  }

  // ------------------------------------------------ when a reused name is fatal

  /** No Put for the entry, finished or not, was ever asked to store what was answered. */
  ghost predicate Wrong(env: Env, s: State, h: Hit) {
    forall i :: i in s.puts && EntryPath(env, s.puts[i].key) == EntryPath(env, h.key) ==>
      env.decode(s.puts[i].data) != env.decode(h.got)
  }

  /** Some run from s, in which no name is reused any more, ends with a wrong answer. */
  ghost predicate CanGoWrong(env: Env, s: State) {
    exists steps, t, h :: Runs(env, s, steps, t) && NamesNotReused(env, s, steps) && h in t.hits && Wrong(env, t, h)
  }

  /** The first n bytes of data decode, to a value no Put for the entry was asked to store. */
  ghost predicate Misleads(env: Env, s: State, path: Name, data: string, n: nat) {
    && n <= |data| && env.decode(data[..n]).Some?
    && forall i :: i in s.puts && EntryPath(env, s.puts[i].key) == path ==>
         env.decode(s.puts[i].data) != env.decode(data[..n])
  }

  lemma WrongComesFromMixing(env: Env, s: State, step: Step, t: State, h: Hit) returns (n: nat)
    requires s.mixed == {} && step.Create? && Enabled(s, step)
    requires var s1 := Apply(env, s, step); Inv(env, t) && Grows(s1, t) && t.mixed == s1.mixed
    requires HitOk(env, t, h) && Wrong(env, t, h)
    ensures EntryPath(env, h.key) in HeldFor(env, s, step.tmp)
    ensures Misleads(env, Apply(env, s, step), EntryPath(env, h.key), step.put.data, n)
  {
    var s1 := Apply(env, s, step);
    hide EntryPath, HeldFor, Inv, Stale;
    assert (EntryPath(env, h.key), h.ino) in Mixing(HeldFor(env, s, step.tmp), step.ino);
    assert s1.puts[step.ino] == step.put && h.ino == step.ino;
    n := |h.got|;
    assert step.put.data[..n] == h.got;
  }

  /** The steps lead from s to t without reusing a name. */
  ghost predicate Leading(env: Env, s: State, steps: seq<Step>, t: State) {
    Runs(env, s, steps, t) && NamesNotReused(env, s, steps)
  }

  lemma {:induction false} Then(env: Env, s: State, steps: seq<Step>, m: State, step: Step)
      returns (more: seq<Step>, t: State)
    requires Leading(env, s, steps, m) && Enabled(m, step)
    requires step.Create? ==> HeldFor(env, m, step.tmp) == {}
    ensures more == steps + [step] && t == Apply(env, m, step) && Leading(env, s, more, t)
    decreases |steps|
  {
    hide Apply, Enabled;
    more, t := steps + [step], Apply(env, m, step);
    if steps == [] {
      assert more[1..] == [] && Runs(env, t, [], t) && NamesNotReused(env, t, []);
    } else {
      var rest, _ := Then(env, Apply(env, s, steps[0]), steps[1..], m, step);
      assert more[1..] == rest && more[0] == steps[0];
    }
  }

  lemma NoSteps(env: Env, s: State)
    ensures Leading(env, s, [], s)
  {
  }

  /** The writer of put finishes what it has left to do before the rename. */
  lemma Finishes(env: Env, s0: State, before: seq<Step>, s: State, q: nat) returns (steps: seq<Step>, t: State)
    requires Leading(env, s0, before, s)
    requires q in s.procs && (s.procs[q].Writing? ==> s.procs[q].wrote <= |s.procs[q].put.data|) && IsWriter(s.procs[q])
    ensures Leading(env, s0, steps, t)
    ensures var p := s.procs[q];
            && t.procs == s.procs[q := Closed(p.put, p.tmp, p.ino)] && t.dir == s.dir
            && t.puts == s.puts && t.hits == s.hits && t.clock == s.clock && t.mixed == s.mixed
            && t.files == (if p.Writing? then s.files[p.ino := File(p.put.data, s.clock)] else s.files)
  {
    hide Leading, EntryPath, HeldFor, Mixing, Stale;
    steps, t := before, s;
    var p := s.procs[q];
    if p.Writing? {
      steps, t := Then(env, s0, steps, t, WriteSome(q, |p.put.data| - p.wrote));
      steps, t := Then(env, s0, steps, t, Close(q));
      assert p.put.data[..|p.put.data|] == p.put.data;
    } else {
      assert s.procs[q := p] == s.procs;
    }
  }

  lemma {:induction false} FreshPid(used: set<nat>) returns (r: nat)
    ensures forall q :: q in used ==> q < r
  {
    r := 0;
    var rest := used;
    while rest != {}
      invariant rest <= used && forall q :: q in used && q !in rest ==> q < r
      decreases rest
    {
      var q :| q in rest;
      rest := rest - {q};
      if r <= q { r := q + 1; }
    }
  }

  /** The holder's rename publishes the file another process is writing, and a Get reads the n
      bytes that are in it. */
  lemma Misread(env: Env, s0: State, before: seq<Step>, s: State, q: nat, pid: nat, r: nat, n: nat)
      returns (steps: seq<Step>, t: State)
    requires Leading(env, s0, before, s)
    requires q in s.procs && s.procs[q].Closed? && pid in s.procs && s.procs[pid].Writing? && r !in s.procs
    requires q != pid && s.procs[pid].wrote == 0 && n <= |s.procs[pid].put.data|
    requires s.procs[q].tmp in s.dir && s.dir[s.procs[q].tmp] == s.procs[pid].ino
    requires env.decode(s.procs[pid].put.data[..n]).Some?
    ensures Leading(env, s0, steps, t) && t.puts == s.puts
    ensures t.hits == s.hits + [Hit(s.procs[q].put.key, s.procs[pid].ino, s.procs[pid].put.data[..n])]
  {
    hide Leading, EntryPath, HeldFor, Mixing, Stale;
    var w, key := s.procs[pid], s.procs[q].put.key;
    steps, t := Then(env, s0, before, s, WriteSome(pid, n));
    assert t.files[w.ino].data == w.put.data[..n];
    steps, t := Then(env, s0, steps, t, Rename(q));
    assert t.files[w.ino].data == w.put.data[..n];
    steps, t := Then(env, s0, steps, t, Open(r, key));
    assert t.procs[r] == Reading(key, w.ino, "") && t.files[w.ino].data == w.put.data[..n];
    steps, t := Then(env, s0, steps, t, ReadSome(r, n));
    assert t.procs[r] == Reading(key, w.ino, w.put.data[..n]) && t.files[w.ino].data == w.put.data[..n];
    steps, t := Then(env, s0, steps, t, Finish(r));
  }

  lemma MisleadingRun(env: Env, s: State, step: Step, q: nat, n: nat)
    requires Inv(env, s) && step.Create? && Enabled(s, step)
    requires q in s.procs && IsWriter(s.procs[q]) && s.procs[q].tmp == step.tmp
    requires Misleads(env, Apply(env, s, step), EntryPath(env, s.procs[q].put.key), step.put.data, n)
    ensures CanGoWrong(env, Apply(env, s, step))
  {
    var s1 := Apply(env, s, step);
    assert ProcOk(env, s, s.procs[q]);
    hide Inv, Stale, EntryPath, HeldFor, Mixing;
    assert s.procs[q].ino != step.ino && s1.dir[step.tmp] == step.ino;
    NoSteps(env, s1);
    hide Leading;
    var steps, t := Finishes(env, s1, [], s1, q);
    var r := FreshPid(t.procs.Keys);
    assert s1.procs[step.pid] == Writing(step.put, step.tmp, step.ino, 0);
    steps, t := Misread(env, s1, steps, t, q, step.pid, r, n);
    GoesWrong(env, s1, steps, t, s.procs[q].put.key, step.ino, step.put.data, n);
  }

  lemma GoesWrong(env: Env, s: State, steps: seq<Step>, t: State, key: string, ino: nat, data: string, n: nat)
    requires Leading(env, s, steps, t) && t.puts == s.puts && Misleads(env, s, EntryPath(env, key), data, n)
    requires t.hits == s.hits + [Hit(key, ino, data[..n])]
    ensures CanGoWrong(env, s)
  {
    var h := Hit(key, ino, data[..n]);
    hide EntryPath;
    assert t.hits[|s.hits|] == h;
    assert Wrong(env, t, h);
  }

  lemma FatalOnlyIf(env: Env, s: State, step: Step) returns (path: Name, n: nat)
    requires Inv(env, s) && s.mixed == {} && step.Create? && Enabled(s, step)
    requires CanGoWrong(env, Apply(env, s, step))
    ensures path in HeldFor(env, s, step.tmp) && Misleads(env, Apply(env, s, step), path, step.put.data, n)
  {
    var s1 := Apply(env, s, step);
    StepIsSafe(env, s, step);
    hide Apply, EntryPath, Enabled, Inv, Misleads, HitOk, Grows, Runs, NamesNotReused, Wrong, HeldFor;
    var steps, t, h :| Runs(env, s1, steps, t) && NamesNotReused(env, s1, steps) && h in t.hits && Wrong(env, t, h);
    EveryHitIsExplained(env, s1, steps, t);
    NothingMixed(env, s1, steps, t);
    path := EntryPath(env, h.key);
    n := WrongComesFromMixing(env, s, step, t, h);
  }

  lemma FatalIf(env: Env, s: State, step: Step, path: Name, n: nat)
    requires Inv(env, s) && step.Create? && Enabled(s, step)
    requires path in HeldFor(env, s, step.tmp) && Misleads(env, Apply(env, s, step), path, step.put.data, n)
    ensures CanGoWrong(env, Apply(env, s, step))
  {
    hide Apply, EntryPath, Enabled, Inv, Misleads, CanGoWrong;
    var q :| q in s.procs && IsWriter(s.procs[q]) && s.procs[q].tmp == step.tmp
             && EntryPath(env, s.procs[q].put.key) == path;
    MisleadingRun(env, s, step, q, n);
  }

  /** Exactly when creating a staged file is fatal: some beginning of what is to be written there
      decodes to a value that no Put was asked to store for an entry whose Put holds the name. */
  lemma ReuseIsFatalIff(env: Env, s: State, step: Step)
    requires Inv(env, s) && s.mixed == {} && step.Create? && Enabled(s, step)
    ensures var s1 := Apply(env, s, step);
            CanGoWrong(env, s1) <==>
            exists path, n :: path in HeldFor(env, s, step.tmp) && Misleads(env, s1, path, step.put.data, n)
  {
    var s1 := Apply(env, s, step);
    hide Apply, Enabled, Inv, Misleads, HeldFor, CanGoWrong;
    if CanGoWrong(env, s1) {
      var path, n := FatalOnlyIf(env, s, step);
    }
    forall path, n | path in HeldFor(env, s, step.tmp) && Misleads(env, s1, path, step.put.data, n)
      ensures CanGoWrong(env, s1)
    {
      FatalIf(env, s, step, path, n);
    }
  }

  /** When only whole values decode, as with JSON objects, a reuse is fatal exactly when the value
      to be written was never meant for an entry whose Put holds the name; a Put of the same key
      is harmless. */
  lemma WholeValuesOnly(env: Env, s: State, step: Step)
    requires Inv(env, s) && s.mixed == {} && step.Create? && Enabled(s, step)
    requires forall n: nat :: n < |step.put.data| ==> env.decode(step.put.data[..n]).None?
    ensures var s1 := Apply(env, s, step);
            CanGoWrong(env, s1) <==>
            exists path :: path in HeldFor(env, s, step.tmp) && Misleads(env, s1, path, step.put.data, |step.put.data|)
    ensures HeldFor(env, s, step.tmp) <= {EntryPath(env, step.put.key)} ==> !CanGoWrong(env, Apply(env, s, step))
  {
    var s1, data := Apply(env, s, step), step.put.data;
    ReuseIsFatalIff(env, s, step);
    assert data[..|data|] == data && s1.puts[step.ino] == step.put;
    hide EntryPath, CanGoWrong, Inv, HeldFor, Apply;
  }

  /** A Put that is not disturbed: staged, written, renamed. */
  lemma QuickPut(env: Env, s0: State, before: seq<Step>, s: State, pid: nat, put: Put, tmp: Name, ino: nat)
      returns (steps: seq<Step>, t: State)
    requires Leading(env, s0, before, s)
    requires pid !in s.procs && tmp.Staged? && tmp !in s.dir && ino !in s.files && HeldFor(env, s, tmp) == {}
    ensures Leading(env, s0, steps, t)
    ensures t.procs == s.procs[pid := Renamed] && t.clock == s.clock && t.mixed == s.mixed
    ensures t.dir == s.dir[EntryPath(env, put.key) := ino] && t.puts == s.puts[ino := put]
    ensures t.files == s.files[ino := File(put.data, s.clock)]
  {
    hide Leading, Stale, EntryPath, HeldFor;
    steps, t := Then(env, s0, before, s, Create(pid, put, tmp, ino));
    assert t.mixed == s.mixed && t.dir == s.dir[tmp := ino];
    steps, t := Finishes(env, s0, steps, t, pid);
    assert t.mixed == s.mixed && t.dir == s.dir[tmp := ino];
    assert t.files == s.files[ino := File(put.data, s.clock)];
    steps, t := Then(env, s0, steps, t, Rename(pid));
    assert s.dir[tmp := ino] - {tmp} == s.dir;
  }

  /** A Put that fails leaves the directory as it found it. */
  lemma FailedPutLeavesNothing(env: Env, s: State, step: Step)
    requires step.Create? && Enabled(s, step)
    ensures var s1 := Apply(env, s, step);
            && Enabled(s1, Fail(step.pid)) && Enabled(Apply(env, s1, Fail(step.pid)), CleanUp(step.pid))
            && Apply(env, Apply(env, s1, Fail(step.pid)), CleanUp(step.pid)).dir == s.dir
  {
    hide HeldFor, Mixing;
    assert s.dir[step.tmp := step.ino] - {step.tmp} == s.dir;
  }

  /** A sweeper that found this name stale is about to remove it. */
  lemma AboutToRemove(env: Env, s0: State, before: seq<Step>, s: State, pid: nat, name: Name)
      returns (steps: seq<Step>, t: State)
    requires Leading(env, s0, before, s) && pid in s.procs && s.procs[pid].Renamed?
    requires name in s.dir && s.dir[name] in s.files && Stale(name, s.files[s.dir[name]].mtime, s.clock, 0)
    ensures Leading(env, s0, steps, t)
    ensures t == s.(procs := s.procs[pid := Removing(s.clock, 0, {}, name)])
  {
    hide Leading, Stale;
    steps, t := Then(env, s0, before, s, StartSweep(pid, 0, {name}));
    steps, t := Then(env, s0, steps, t, Inspect(pid, name));
    assert {name} - {name} == {};
  }

  /** How a held name comes free: a writer slower than the grace period loses its staged file to
      the sweep of another Put. */
  lemma HeldNameComesFree(env: Env, slow: Put, quick: Put, name: Name, other: Name)
      returns (steps: seq<Step>, t: State)
    requires name.Staged? && other.Staged? && name != other
    ensures Leading(env, START, steps, t) && t.mixed == {}
    ensures name !in t.dir && 0 in t.procs && t.procs[0] == Writing(slow, name, 0, 0)
    ensures t.procs.Keys == {0, 1} && t.puts == map[0 := slow, 1 := quick] && t.files.Keys == {0, 1}
  {
    NoSteps(env, START);
    steps, t := [], START;
    hide Leading, EntryPath, Runs, NamesNotReused;
    steps, t := Then(env, START, steps, t, Create(0, slow, name, 0));
    steps, t := Then(env, START, steps, t, Wait(TMP_GRACE));
    assert HeldFor(env, t, other) == {};
    steps, t := QuickPut(env, START, steps, t, 1, quick, other, 1);
    assert t.dir[name] == 0 && t.files[0].mtime == 0 && t.clock == TMP_GRACE;
    steps, t := AboutToRemove(env, START, steps, t, 1, name);
    steps, t := Then(env, START, steps, t, Remove(1));
  }

  /** From an empty directory: the slow Put's name is created again, and a Get of its key answers
      with the whole value of the other Put, which was never meant for that key. */
  lemma ReusedNameAnswersWrongly(env: Env, slow: Put, quick: Put) returns (steps: seq<Step>, s: State, reuse: Step)
    requires EntryPath(env, slow.key) != EntryPath(env, quick.key)
    requires env.decode(quick.data).Some? && env.decode(quick.data) != env.decode(slow.data)
    ensures Leading(env, START, steps, s) && Inv(env, s) && reuse.Create? && Enabled(s, reuse)
    ensures reuse.put == quick && CanGoWrong(env, Apply(env, s, reuse))
  {
    var name := Staged("1");
    steps, s := HeldNameComesFree(env, slow, quick, name, Staged("2"));
    LeadingIsSafe(env, steps, s);
    reuse := Create(2, quick, name, 2);
    hide EntryPath, Inv, Leading, CanGoWrong, Misleads;
    var path := EntryPath(env, slow.key);
    assert IsWriter(s.procs[0]) && path in HeldFor(env, s, name);
    QuickMisleads(env, Apply(env, s, reuse), slow, quick);
    FatalIf(env, s, reuse, path, |quick.data|);
  }

  lemma QuickMisleads(env: Env, s: State, slow: Put, quick: Put)
    requires s.puts == map[0 := slow, 1 := quick, 2 := quick]
    requires EntryPath(env, slow.key) != EntryPath(env, quick.key)
    requires env.decode(quick.data).Some? && env.decode(quick.data) != env.decode(slow.data)
    ensures Misleads(env, s, EntryPath(env, slow.key), quick.data, |quick.data|)
  {
    hide EntryPath;
    assert quick.data[..|quick.data|] == quick.data;
  }

  // --------------------------------------------- when a staged file survives

  /** No other process than q has the name: none is staged under it, has it to clean up, or is
      about to remove it. */
  ghost predicate Unclaimed(s: State, tmp: Name, q: nat) {
    forall r :: r in s.procs && r != q ==>
      match s.procs[r]
      case Writing(_, t, _, _) => t != tmp
      case Closed(_, t, _) => t != tmp
      case Failed(t) => t != tmp
      case Removing(_, _, _, n) => n != tmp
      case _ => true
  }

  /** Every sweep starts within an hour of the last write to the file. */
  ghost predicate SweptEarly(env: Env, s: State, steps: seq<Step>, ino: nat)
    decreases |steps|
  {
    steps == [] ||
    (Enabled(s, steps[0]) ==>
       && (steps[0].StartSweep? && ino in s.files ==> s.clock < s.files[ino].mtime + 3600)
       && SweptEarly(env, Apply(env, s, steps[0]), steps[1..], ino))
  }

  /** Nobody but q writes the file. */
  ghost predicate WrittenByNone(s: State, ino: nat, q: nat) {
    forall r :: r in s.procs && r != q && IsWriter(s.procs[r]) ==> s.procs[r].ino != ino
  }

  /** No sweep going on takes a file last written at m for an hour old. */
  ghost predicate NoneTooLate(s: State, m: int) {
    forall r :: r in s.procs && Sweeps(s.procs[r]) ==> s.procs[r].now < m + 3600
  }

  ghost predicate IsStaged(s: State, q: nat, put: Put, tmp: Name, ino: nat) {
    && q in s.procs && IsWriter(s.procs[q]) && s.procs[q].put == put && s.procs[q].tmp == tmp && s.procs[q].ino == ino
    && tmp.Staged? && tmp in s.dir && s.dir[tmp] == ino && ino in s.files
  }

  /** Process q writes its file under tmp, nobody else has the name or the file, and no sweep takes
      it for old. */
  ghost predicate Staging(s: State, q: nat, put: Put, tmp: Name, ino: nat) {
    && IsStaged(s, q, put, tmp, ino) && WrittenByNone(s, ino, q) && Unclaimed(s, tmp, q)
    && NoneTooLate(s, s.files[ino].mtime)
  }

  /** Nobody writes the file any more. */
  ghost predicate Given(s: State, ino: nat) {
    ino in s.files && forall q :: q in s.procs && IsWriter(s.procs[q]) ==> s.procs[q].ino != ino
  }

  lemma GivenStays(env: Env, s: State, step: Step, ino: nat)
    requires Given(s, ino) && Enabled(s, step)
    ensures Given(Apply(env, s, step), ino)
  {
    hide HeldFor, Mixing, Stale, EntryPath;
  }

  /** A step by which q stops writing. */
  lemma Gives(env: Env, s: State, step: Step, q: nat, put: Put, tmp: Name, ino: nat)
    requires Staging(s, q, put, tmp, ino) && Enabled(s, step)
    requires !step.Wait? && step.pid == q && !step.WriteSome? && !step.Close?
    ensures Given(Apply(env, s, step), ino)
  {
    hide Unclaimed, NoneTooLate, EntryPath;
  }

  lemma StaysWritten(env: Env, s: State, step: Step, q: nat, put: Put, tmp: Name, ino: nat)
    requires Enabled(s, step) && Staging(s, q, put, tmp, ino)
    requires step.Wait? || step.pid != q || step.WriteSome? || step.Close?
    ensures WrittenByNone(Apply(env, s, step), ino, q)
  {
    hide HeldFor, Mixing, Stale, EntryPath, Unclaimed, NoneTooLate;
  }

  lemma StaysUnclaimed(env: Env, s: State, step: Step, q: nat, put: Put, tmp: Name, ino: nat)
    requires Enabled(s, step) && Staging(s, q, put, tmp, ino)
    requires step.Wait? || step.pid != q || step.WriteSome? || step.Close?
    ensures Unclaimed(Apply(env, s, step), tmp, q)
  {
    hide HeldFor, Mixing, EntryPath, WrittenByNone;
  }

  lemma StaysStaged(env: Env, s: State, step: Step, q: nat, put: Put, tmp: Name, ino: nat)
    requires Enabled(s, step) && Staging(s, q, put, tmp, ino)
    requires step.Wait? || step.pid != q || step.WriteSome? || step.Close?
    ensures IsStaged(Apply(env, s, step), q, put, tmp, ino)
  {
    hide HeldFor, Mixing, Stale, NoneTooLate, WrittenByNone;
  }

  lemma StaysInTime(env: Env, s: State, step: Step, q: nat, put: Put, tmp: Name, ino: nat)
    requires FilesOk(s) && Enabled(s, step) && Staging(s, q, put, tmp, ino)
    requires step.StartSweep? ==> s.clock < s.files[ino].mtime + 3600
    ensures var t := Apply(env, s, step); ino in t.files && NoneTooLate(t, t.files[ino].mtime)
  {
    hide HeldFor, Mixing, Stale, EntryPath, Unclaimed, WrittenByNone;
    var t := Apply(env, s, step);
    assert ino in t.files && s.files[ino].mtime <= t.files[ino].mtime;
    hide FilesOk;
  }

  /** Step by step, the writer's name leads to its file as long as it writes. */
  lemma {:induction false} StagedRun(env: Env, s: State, steps: seq<Step>, t: State, q: nat, put: Put, tmp: Name,
      ino: nat)
    requires Inv(env, s) && Runs(env, s, steps, t) && SweptEarly(env, s, steps, ino)
    requires Staging(s, q, put, tmp, ino) || Given(s, ino)
    ensures Staging(t, q, put, tmp, ino) || Given(t, ino)
    decreases |steps|
  {
    if steps != [] {
      var step, m := steps[0], Apply(env, s, steps[0]);
      StepIsSafe(env, s, step);
      if Given(s, ino) {
        GivenStays(env, s, step, ino);
      } else if !step.Wait? && step.pid == q && !step.WriteSome? && !step.Close? {
        Gives(env, s, step, q, put, tmp, ino);
      } else {
        StaysWritten(env, s, step, q, put, tmp, ino);
        StaysUnclaimed(env, s, step, q, put, tmp, ino);
        StaysStaged(env, s, step, q, put, tmp, ino);
        assert FilesOk(s) by { FilesOf(env, s); }
        StaysInTime(env, s, step, q, put, tmp, ino);
      }
      hide Inv, Apply, Enabled, Given, Unclaimed, IsStaged, WrittenByNone, NoneTooLate;
      StagedRun(env, m, steps[1..], t, q, put, tmp, ino);
    }
  }

  lemma FilesOf(env: Env, s: State)
    requires Inv(env, s)
    ensures FilesOk(s)
  {
  }

  lemma StagingStarts(env: Env, s: State, step: Step)
    requires Inv(env, s) && step.Create? && Enabled(s, step) && Unclaimed(s, step.tmp, step.pid)
    ensures Staging(Apply(env, s, step), step.pid, step.put, step.tmp, step.ino)
  {
    hide HeldFor, Mixing, EntryPath, HitsOk, DirOk;
    assert forall q :: q in s.procs ==> ProcOk(env, s, s.procs[q]);
  }

  /** In every interleaving: when a Put stages its file under a name nobody has, and no sweep starts
      an hour or more after its last write, then as long as it writes the name leads to its own
      file, and its rename publishes all of its data. */
  lemma StagedFileIsSafe(env: Env, s: State, step: Step, steps: seq<Step>, t: State)
    requires Inv(env, s) && step.Create? && Enabled(s, step) && Unclaimed(s, step.tmp, step.pid)
    requires Runs(env, Apply(env, s, step), steps, t) && SweptEarly(env, Apply(env, s, step), steps, step.ino)
    requires step.pid in t.procs && IsWriter(t.procs[step.pid]) && t.procs[step.pid].ino == step.ino
    ensures t.procs[step.pid].tmp == step.tmp && step.tmp in t.dir && t.dir[step.tmp] == step.ino
    ensures t.procs[step.pid].Closed? ==>
      && Enabled(t, Rename(step.pid)) && step.ino in t.files && t.files[step.ino].data == step.put.data
      && (var path, after := EntryPath(env, step.put.key), Apply(env, t, Rename(step.pid));
          path in after.dir && after.dir[path] == step.ino)
  {
    StagingStarts(env, s, step);
    StepIsSafe(env, s, step);
    var s1 := Apply(env, s, step);
    StagedRun(env, s1, steps, t, step.pid, step.put, step.tmp, step.ino);
    EveryHitIsExplained(env, s1, steps, t);
    hide Runs, SweptEarly, Unclaimed, NoneTooLate, EntryPath, Inv, Apply, Enabled;
    if t.procs[step.pid].Closed? {
      RenamePublishes(env, t, step.pid, step.put, step.tmp, step.ino);
    }
  }

  lemma RenamePublishes(env: Env, t: State, q: nat, put: Put, tmp: Name, ino: nat)
    requires Inv(env, t) && IsStaged(t, q, put, tmp, ino) && t.procs[q].Closed?
    ensures Enabled(t, Rename(q)) && ino in t.files && t.files[ino].data == put.data
    ensures var path := EntryPath(env, put.key);
            path in Apply(env, t, Rename(q)).dir && Apply(env, t, Rename(q)).dir[path] == ino
  {
    assert ProcOk(env, t, t.procs[q]);
    hide EntryPath, DirOk, HitsOk, ProcsOk;
  }

  // --------------------------------------------- when a fresh entry survives

  predicate Sweeps(p: Proc) { p.Sweeping? || p.Removing? }

  /** From s on, time stays within `limit` of the time m, sweeps keep entries at least that long,
      and no file older than m is renamed to the entry. */
  ghost predicate Within(env: Env, s: State, steps: seq<Step>, path: Name, m: int, limit: int)
    decreases |steps|
  {
    steps == [] ||
    (Enabled(s, steps[0]) ==>
       && WithinStep(env, s, steps[0], path, m, limit)
       && Within(env, Apply(env, s, steps[0]), steps[1..], path, m, limit))
  }

  ghost predicate WithinStep(env: Env, s: State, step: Step, path: Name, m: int, limit: int)
    requires Enabled(s, step)
  {
    match step
    case Wait(seconds) => s.clock + seconds - m < limit
    case StartSweep(_, maxAge, _) => AgeLimit(maxAge) >= limit
    case Rename(pid) =>
      var p := s.procs[pid];
      p.tmp in s.dir && s.dir[p.tmp] in s.files && EntryPath(env, p.put.key) == path ==>
        s.files[s.dir[p.tmp]].mtime >= m
    case _ => true
  }

  /** The entry is there, young, and in nobody's sights. */
  ghost predicate Kept(s: State, path: Name, m: int, limit: int) {
    && path in s.dir && s.dir[path] in s.files && s.files[s.dir[path]].mtime >= m
    && m <= s.clock < m + limit
    && (forall q :: q in s.procs && Sweeps(s.procs[q]) ==> AgeLimit(s.procs[q].maxAge) >= limit)
    && (forall q :: q in s.procs && s.procs[q].Removing? ==> s.procs[q].name != path)
  }

  lemma KeptStep(env: Env, s: State, step: Step, path: Name, m: int, limit: int)
    requires Inv(env, s) && Enabled(s, step) && WithinStep(env, s, step, path, m, limit)
    requires path.Entry? && Kept(s, path, m, limit)
    ensures Kept(Apply(env, s, step), path, m, limit)
  {
    if step.Rename? || step.CleanUp? {
      StagedNames(env, s, step.pid);
      hide Inv;
      KeptByMoves(env, s, step, path, m, limit);
    } else if step.Create? || step.WriteSome? {
      KeptByWrites(env, s, step, path, m, limit);
    } else if step.StartSweep? || step.Inspect? || step.Remove? {
      assert ProcOk(env, s, s.procs[step.pid]);
      hide Inv;
      KeptBySweeps(env, s, step, path, m, limit);
    } else {
      hide Inv;
      KeptByOthers(env, s, step, path, m, limit);
    }
  }

  lemma KeptByMoves(env: Env, s: State, step: Step, path: Name, m: int, limit: int)
    requires Enabled(s, step) && (step.Rename? || step.CleanUp?) && WithinStep(env, s, step, path, m, limit)
    requires s.procs[step.pid].tmp.Staged? && forall n :: n in s.dir ==> s.dir[n] in s.files
    requires path.Entry? && Kept(s, path, m, limit)
    ensures Kept(Apply(env, s, step), path, m, limit)
  {
    hide EntryPath, AgeLimit;
  }

  lemma KeptByWrites(env: Env, s: State, step: Step, path: Name, m: int, limit: int)
    requires Inv(env, s) && Enabled(s, step) && (step.Create? || step.WriteSome?)
    requires path.Entry? && Kept(s, path, m, limit)
    ensures Kept(Apply(env, s, step), path, m, limit)
  {
    hide EntryPath, HeldFor, Mixing, HitsOk, ProcsOk, DirOk, AgeLimit;
  }

  lemma KeptBySweeps(env: Env, s: State, step: Step, path: Name, m: int, limit: int)
    requires Enabled(s, step) && (step.StartSweep? || step.Inspect? || step.Remove?)
    requires WithinStep(env, s, step, path, m, limit) && ProcOk(env, s, s.procs[step.pid])
    requires path.Entry? && Kept(s, path, m, limit)
    ensures Kept(Apply(env, s, step), path, m, limit)
  {
    hide EntryPath;
  }

  predicate Harmless(step: Step) {
    step.Close? || step.Fail? || step.Open? || step.ReadSome? || step.Finish? || step.Die? || step.Wait?
  }

  lemma KeptByOthers(env: Env, s: State, step: Step, path: Name, m: int, limit: int)
    requires Enabled(s, step) && WithinStep(env, s, step, path, m, limit) && Harmless(step)
    requires Kept(s, path, m, limit)
    ensures Kept(Apply(env, s, step), path, m, limit)
  {
    hide EntryPath, Stale, AgeLimit;
  }

  /** A process that renames or cleans up does so under a staged name, of a file that is there. */
  lemma StagedNames(env: Env, s: State, pid: nat)
    requires Inv(env, s) && pid in s.procs
    ensures IsWriter(s.procs[pid]) || s.procs[pid].Failed? ==> s.procs[pid].tmp.Staged?
    ensures forall n :: n in s.dir ==> s.dir[n] in s.files
  {
    hide EntryPath, FilesOk, HitsOk, Leads;
    assert ProcOk(env, s, s.procs[pid]);
  }

  lemma {:induction false} KeptRun(env: Env, s: State, steps: seq<Step>, t: State, path: Name, m: int, limit: int)
    requires Inv(env, s) && path.Entry? && Kept(s, path, m, limit)
    requires Runs(env, s, steps, t) && Within(env, s, steps, path, m, limit)
    ensures Kept(t, path, m, limit)
    decreases |steps|
  {
    hide Kept, Inv, Apply, Enabled, WithinStep;
    if steps != [] {
      StepIsSafe(env, s, steps[0]);
      KeptStep(env, s, steps[0], path, m, limit);
      KeptRun(env, Apply(env, s, steps[0]), steps[1..], t, path, m, limit);
    }
  }

  /** The entry is there after every run within its age limit. */
  ghost predicate Survives(env: Env, s: State, path: Name, m: int, limit: int) {
    forall steps, t :: Runs(env, s, steps, t) && Within(env, s, steps, path, m, limit) ==> path in t.dir
  }

  /** A freshly renamed entry survives every run within its age limit exactly when no other
      process is about to remove a file of that name, which it found too old before the rename. */
  lemma SurvivesIff(env: Env, s: State, pid: nat, limit: int)
    requires Inv(env, s) && Enabled(s, Rename(pid)) && s.procs[pid].tmp in s.dir
    requires s.clock < s.files[s.dir[s.procs[pid].tmp]].mtime + limit
    requires forall q :: q in s.procs && Sweeps(s.procs[q]) ==> AgeLimit(s.procs[q].maxAge) >= limit
    ensures var path, m := EntryPath(env, s.procs[pid].put.key), s.files[s.dir[s.procs[pid].tmp]].mtime;
            Survives(env, Apply(env, s, Rename(pid)), path, m, limit) <==>
            forall q :: q in s.procs && s.procs[q].Removing? ==> s.procs[q].name != path
  {
    var path, m := EntryPath(env, s.procs[pid].put.key), s.files[s.dir[s.procs[pid].tmp]].mtime;
    var s1 := Apply(env, s, Rename(pid));
    StepIsSafe(env, s, Rename(pid));
    forall q | q in s.procs && s.procs[q].Removing? && s.procs[q].name == path
      ensures !Survives(env, s1, path, m, limit)
    {
      RemovedAtOnce(env, s1, q, path, m, limit);
    }
    if forall q :: q in s.procs && s.procs[q].Removing? ==> s.procs[q].name != path {
      assert ProcOk(env, s, s.procs[pid]);
      assert Kept(s1, path, m, limit);
      hide Kept, Inv, Apply, Enabled, Runs, Within, EntryPath;
      forall steps, t | Runs(env, s1, steps, t) && Within(env, s1, steps, path, m, limit) ensures path in t.dir {
        KeptRun(env, s1, steps, t, path, m, limit);
        assert path in t.dir by { KeptIsThere(t, path, m, limit); }
      }
    }
  }

  lemma KeptIsThere(t: State, path: Name, m: int, limit: int)
    requires Kept(t, path, m, limit)
    ensures path in t.dir
  {
  }

  lemma RemovedAtOnce(env: Env, s: State, q: nat, path: Name, m: int, limit: int)
    requires q in s.procs && s.procs[q].Removing? && s.procs[q].name == path
    ensures !Survives(env, s, path, m, limit)
  {
    hide Stale, EntryPath;
    var t := Apply(env, s, Remove(q));
    assert Runs(env, t, [], t) && Within(env, t, [], path, m, limit) && [Remove(q)][1..] == [];
    assert Runs(env, s, [Remove(q)], t);
    assert Within(env, s, [Remove(q)], path, m, limit);
    assert path !in t.dir;
  }

  /** From an empty directory to a state in which a Put is about to rename its file to an entry
      that a sweep, having seen the old file there, is about to remove: the new entry is lost the
      moment it is published, although it is not a second old. */
  lemma FreshEntryIsLost(env: Env, put: Put) returns (steps: seq<Step>, s: State)
    ensures Leading(env, START, steps, s) && Inv(env, s) && Enabled(s, Rename(2)) && s.procs[2].put == put
    ensures s.procs[2].tmp in s.dir && s.files[s.dir[s.procs[2].tmp]] == File(put.data, s.clock)
    ensures var path := EntryPath(env, put.key);
            !Survives(env, Apply(env, s, Rename(2)), path, s.clock, DEFAULT_MAX_AGE)
  {
    var path := EntryPath(env, put.key);
    NoSteps(env, START);
    StartIsSafe(env);
    steps, s := [], START;
    hide Leading, EntryPath, Runs, NamesNotReused, Inv, Survives;
    steps, s := QuickPut(env, START, steps, s, 1, put, Staged("1"), 0);
    steps, s := Then(env, START, steps, s, Wait(DEFAULT_MAX_AGE));
    steps, s := Then(env, START, steps, s, Create(2, put, Staged("2"), 1));
    steps, s := Finishes(env, START, steps, s, 2);
    assert s.files[0].mtime == 0 && s.dir[path] == 0 && s.dir[Staged("2")] == 1;
    steps, s := AboutToRemove(env, START, steps, s, 1, path);
    LeadingIsSafe(env, steps, s);
    RemovedAtOnce(env, Apply(env, s, Rename(2)), 1, path, s.clock, DEFAULT_MAX_AGE);
  }

  lemma LeadingIsSafe(env: Env, steps: seq<Step>, s: State)
    requires Leading(env, START, steps, s)
    ensures Inv(env, s)
  {
    StartIsSafe(env);
    EveryHitIsExplained(env, START, steps, s);
  }
}
