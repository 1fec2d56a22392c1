/** The file cache of internal/filecache/filecache.go, used by one process alone.

    A directory maps names to files. Names fall into three kinds, as the sweep tells them apart:
    staged files (`.tmp-*`), entries (`*.json`) and everything else. Times are in seconds. */
module FileCache {
  import opened Options

  const TMP_GRACE: nat := 3600
  const DEFAULT_MAX_AGE: int := 604800

  datatype Name = Staged(suffix: string) | Entry(digest: string) | Foreign(name: string)

  type Value = string // stands for any value of the cached type

  /** The functions a cache is built on: the hash of keys, and marshalling, which can fail both
      ways. */
  datatype Env = Env(digest: string -> string, encode: Value -> Option<string>, decode: string -> Option<Value>)

  /** `entryPath`: the digest of a key is hexadecimal, so it never looks staged. */
  function EntryPath(env: Env, key: string): (path: Name)
    ensures path.Entry?
  {
    Entry(env.digest(key))
  }

  /** Two keys share an entry exactly when they share a digest, and an entry is no staged file. */
  lemma EntriesAreApart(env: Env, a: string, b: string)
    ensures EntryPath(env, a) == EntryPath(env, b) <==> env.digest(a) == env.digest(b)
  {
  }

  function AgeLimit(maxAge: int): int { if maxAge <= 0 then DEFAULT_MAX_AGE else maxAge }

  /** The sweep's test: past its own age limit, for the two kinds of file it may remove. */
  predicate Stale(n: Name, mtime: int, now: int, maxAge: int) {
    match n
    case Staged(_) => mtime <= now - TMP_GRACE
    case Entry(_) => mtime <= now - AgeLimit(maxAge)
    case Foreign(_) => false
  }

  // -------------------------------------------------------- one process alone

  datatype File = File(data: string, mtime: int)

  function Swept(files: map<Name, File>, now: int, maxAge: int): map<Name, File> {
    map n | n in files && !Stale(n, files[n].mtime, now, maxAge) :: files[n]
  }

  /** The file operation of a Put that fails; a short write leaves some of the bytes behind. */
  datatype Trouble = NoDirectory | NoStaging | ShortWrite(bytes: nat) | NoRename

  class Cache {
    const env: Env
    const maxAge: int
    var files: map<Name, File>

    constructor (env: Env, maxAge: int)
      ensures this.env == env && this.maxAge == maxAge && files == map[]
    {
      this.env, this.maxAge, files := env, maxAge, map[];
    }

    method Get(key: string) returns (r: Option<Value>)
      ensures r == Lookup(env, files, EntryPath(env, key))
    {
      var path := EntryPath(env, key);
      if path !in files {
        return None;
      }
      r := env.decode(files[path].data);
    }

    /** Removes exactly the files past their age limit. */
    method Sweep(now: int)
      modifies this
      ensures files == Swept(old(files), now, maxAge)
    {
      var todo := files.Keys;
      while todo != {}
        invariant todo <= old(files.Keys)
        invariant files.Keys <= old(files.Keys) && forall n :: n in files ==> files[n] == old(files)[n]
        invariant forall n :: n in old(files) ==>
          (n in files <==> n in todo || !Stale(n, old(files)[n].mtime, now, maxAge))
        decreases todo
      {
        var n :| n in todo;
        todo := todo - {n};
        if Stale(n, files[n].mtime, now, maxAge) {
          files := files - {n};
        }
      }
    }

    /** Make the directory, marshal, stage, write at time `wrote`, rename, sweep at time `swept`;
        clean up after a write or a rename that fails. */
    method Put(key: string, v: Value, tmp: Name, wrote: int, swept: int, trouble: Option<Trouble>) returns (ok: bool)
      requires tmp.Staged? && tmp !in files
      modifies this
      ensures ok == (env.encode(v).Some? && trouble.None?)
      ensures !ok ==> files == old(files)
      ensures ok ==> files == AfterPut(env, old(files), key, env.encode(v).value, wrote, swept, maxAge)
    {
      if trouble == Some(NoDirectory) {
        return false;
      }
      var data := env.encode(v);
      if data.None? || trouble == Some(NoStaging) {
        return false;
      }
      files := files[tmp := File("", wrote)];
      if trouble.Some? && trouble.value.ShortWrite? {
        files := files[tmp := File(data.value[..trouble.value.bytes % (|data.value| + 1)], wrote)];
        files := files - {tmp};
        return false;
      }
      files := files[tmp := File(data.value, wrote)];
      if trouble == Some(NoRename) {
        files := files - {tmp};
        return false;
      }
      files := (files - {tmp})[EntryPath(env, key) := files[tmp]];
      assert files == old(files)[EntryPath(env, key) := File(data.value, wrote)];
      Sweep(swept);
      ok := true;
    }
  }

  function AfterPut(env: Env, files: map<Name, File>, key: string, data: string, wrote: int, swept: int, maxAge: int)
    : map<Name, File>
  {
    Swept(files[EntryPath(env, key) := File(data, wrote)], swept, maxAge)
  }

  /** What Get makes of a path: an entry that does not decode is a miss. */
  function Lookup(env: Env, files: map<Name, File>, path: Name): Option<Value> {
    if path in files then env.decode(files[path].data) else None
  }

  /** A Put alone is visible to the next Get exactly when the sweep follows the write within the
      age limit (and marshalling can be undone); otherwise the next Get is a miss. It never hides
      or changes another key's entry that is within its own limit. */
  lemma PutThenGet(env: Env, files: map<Name, File>, key: string, v: Value, wrote: int, swept: int, maxAge: int)
    requires env.encode(v).Some?
    ensures var data := env.encode(v).value;
            var got := Lookup(env, AfterPut(env, files, key, data, wrote, swept, maxAge), EntryPath(env, key));
            && (got == Some(v) <==> swept - wrote < AgeLimit(maxAge) && env.decode(data) == Some(v))
            && (swept - wrote >= AgeLimit(maxAge) ==> got == None)
    ensures var after := AfterPut(env, files, key, env.encode(v).value, wrote, swept, maxAge);
            forall n :: n != EntryPath(env, key) && n in files && !Stale(n, files[n].mtime, swept, maxAge) ==>
                Lookup(env, after, n) == Lookup(env, files, n)
  {
  }

  /** What a sweep removes: a staged file an hour old or more, an entry as old as the age limit, a
      week when there is none, or older; and nothing else. */
  lemma SweepRemoves(files: map<Name, File>, now: int, maxAge: int)
    ensures var after := Swept(files, now, maxAge);
      && (forall n :: n in after ==> n in files && after[n] == files[n])
      && forall n :: n in files ==>
           (n !in after <==> var age := now - files[n].mtime;
                             (n.Staged? && age >= 3600)
                             || (n.Entry? && age >= if maxAge <= 0 then 604800 else maxAge))
  {
  }
}
