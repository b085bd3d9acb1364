/** The in-memory cache in front of a static directory (`CachedServeDir::call`,
src/server.rs), beside a disk that is edited while requests come in. Each call is one step;
times are nanoseconds. */
module StaticCache {
  import opened Runs
  import opened Text

  const STATIC_CACHE_MAX_BYTES: nat := 1048576
  const STATIC_TTL: nat := 1_000_000_000

  /** What stands under a path; a directory has an mtime too. */
  datatype File = File(isFile: bool, bytes: string, mtime: nat, readable: bool)

  datatype CachedFile = CachedFile(bytes: string, mtime: nat, validatedAt: nat)

  /** The disk as it was at one time. */
  datatype Moment = Moment(time: nat, disk: map<string, File>)

  datatype Method = Get | Head | Other

  datatype Reply = Delegated | Served(body: string, length: nat)

  /** `trim_start_matches('/')`. */
  function Relative(path: string): string {
    if path != "" && path[0] == '/' then Relative(path[1..]) else path
  }

  predicate Escapes(rel: string) {
    ".." in Split(rel, '/')
  }

  ghost predicate OnDisk(trace: seq<Moment>, i: int, path: string, bytes: string, mtime: nat) {
    && 0 <= i < |trace| && path in trace[i].disk
    && trace[i].disk[path].bytes == bytes && trace[i].disk[path].mtime == mtime
  }

  /** The entry is what stood under the path when it was last checked. */
  ghost predicate Held(trace: seq<Moment>, path: string, e: CachedFile) {
    exists i :: OnDisk(trace, i, path, e.bytes, e.mtime) && trace[i].time == e.validatedAt
  }

  /** Some time less than a second before `now`, `bytes` stood under `path`. */
  ghost predicate Recent(trace: seq<Moment>, path: string, bytes: string, now: nat) {
    exists i, mtime :: OnDisk(trace, i, path, bytes, mtime) && trace[i].time <= now < trace[i].time + STATIC_TTL
  }

  /** Equal mtimes mean equal content. */
  ghost predicate Agree(a: map<string, File>, b: map<string, File>) {
    forall p :: p in a && p in b && a[p].mtime == b[p].mtime ==> a[p].bytes == b[p].bytes
  }

  ghost predicate MtimeTells(trace: seq<Moment>) {
    forall i, j :: 0 <= i < |trace| && 0 <= j < |trace| ==> Agree(trace[i].disk, trace[j].disk)
  }

  lemma HeldLater(trace: seq<Moment>, m: Moment, path: string, e: CachedFile)
    requires Held(trace, path, e)
    ensures Held(trace + [m], path, e)
  {
    var i :| OnDisk(trace, i, path, e.bytes, e.mtime) && trace[i].time == e.validatedAt;
    assert OnDisk(trace + [m], i, path, e.bytes, e.mtime);
  }

  lemma TellsLater(trace: seq<Moment>, m: Moment)
    requires MtimeTells(trace) && forall i :: 0 <= i < |trace| ==> Agree(trace[i].disk, m.disk)
    ensures MtimeTells(trace + [m])
  {
    var all := trace + [m];
    forall i, j | 0 <= i < |all| && 0 <= j < |all| ensures Agree(all[i].disk, all[j].disk) {
      if i < |trace| && j < |trace| {
        assert Agree(trace[i].disk, trace[j].disk);
      } else if i < |trace| {
        assert Agree(trace[i].disk, m.disk);
      } else if j < |trace| {
        assert Agree(trace[j].disk, m.disk);
      }
    }
  }

  /** What the cache keeps at all times. */
  ghost predicate Sound(cache: map<string, CachedFile>, trace: seq<Moment>, now: nat) {
    forall p :: p in cache ==>
      && Held(trace, p, cache[p])
      && cache[p].validatedAt <= now
      && |cache[p].bytes| <= STATIC_CACHE_MAX_BYTES
  }

  lemma SoundLater(cache: map<string, CachedFile>, trace: seq<Moment>, now: nat, m: Moment)
    requires Sound(cache, trace, now) && now <= m.time
    ensures Sound(cache, trace + [m], m.time)
  {
    forall p | p in cache ensures Held(trace + [m], p, cache[p]) {
      HeldLater(trace, m, p, cache[p]);
    }
  }

  lemma SoundWith(cache: map<string, CachedFile>, trace: seq<Moment>, now: nat, path: string, e: CachedFile)
    requires Sound(cache, trace, now) && Held(trace, path, e)
    requires e.validatedAt <= now && |e.bytes| <= STATIC_CACHE_MAX_BYTES
    ensures Sound(cache[path := e], trace, now)
    ensures cache[path := e] - {path} == cache - {path}
  {
  }

  class Server {
    const root: string
    var cache: map<string, CachedFile>
    var disk: map<string, File>
    var clock: nat
    ghost var trace: seq<Moment>

    ghost predicate Valid()
      reads this
    {
      && trace != [] && trace[|trace| - 1] == Moment(clock, disk)
      && MtimeTells(trace)
      && Sound(cache, trace, clock)
    }

    constructor (root: string, disk: map<string, File>, clock: nat)
      ensures Valid() && this.root == root && cache == map[] && this.disk == disk && this.clock == clock
      ensures trace == [Moment(clock, disk)]
    {
      this.root, this.cache, this.disk, this.clock := root, map[], disk, clock;
      this.trace := [Moment(clock, disk)];
    }

    /** Someone creates, rewrites, grows or deletes a file, or time passes; a new content gets
    an mtime that no other content of that path ever had. */
    method Change(after: map<string, File>, elapsed: nat)
      requires Valid() && forall i :: 0 <= i < |trace| ==> Agree(trace[i].disk, after)
      modifies this`disk, this`clock, this`trace
      ensures Valid() && disk == after && clock == old(clock) + elapsed
      ensures trace == old(trace) + [Moment(clock, disk)]
    {
      var m := Moment(clock + elapsed, after);
      TellsLater(trace, m);
      SoundLater(cache, trace, clock, m);
      disk, clock, trace := after, clock + elapsed, trace + [m];
    }

    /** What the request would be looked up under. */
    function FullPath(path: string): string {
      root + "/" + Relative(path)
    }

    /** Nothing changed the disk's file since the entry was read. */
    lemma StillThere(full: string)
      requires Valid() && full in cache && full in disk && disk[full].mtime == cache[full].mtime
      ensures Held(trace, full, cache[full].(validatedAt := clock))
    {
      var e := cache[full];
      var i :| OnDisk(trace, i, full, e.bytes, e.mtime) && trace[i].time == e.validatedAt;
      assert Agree(trace[i].disk, trace[|trace| - 1].disk);
      assert OnDisk(trace, |trace| - 1, full, e.bytes, e.mtime);
    }

    lemma HeldIsRecent(full: string, e: CachedFile)
      requires Valid() && Held(trace, full, e) && e.validatedAt <= clock < e.validatedAt + STATIC_TTL
      ensures Recent(trace, full, e.bytes, clock)
    {
      var i :| OnDisk(trace, i, full, e.bytes, e.mtime) && trace[i].time == e.validatedAt;
      assert OnDisk(trace, i, full, e.bytes, e.mtime) && trace[i].time <= clock < trace[i].time + STATIC_TTL;
    }

    /** Small enough, and readable. */
    predicate Cacheable(full: string)
      reads this
    {
      full in disk && disk[full].isFile && disk[full].readable && |disk[full].bytes| <= STATIC_CACHE_MAX_BYTES
    }

    /** Checked within the second. */
    predicate Young(e: CachedFile)
      reads this
    {
      clock - e.validatedAt < STATIC_TTL
    }

    /** The disk still has the mtime the entry was read with. */
    predicate Unchanged(full: string, e: CachedFile)
      reads this
    {
      full in disk && disk[full].mtime == e.mtime
    }

    /** An entry is there that may be served without reading the file. */
    predicate Usable(entries: map<string, CachedFile>, full: string)
      reads this
    {
      full in entries && (Young(entries[full]) || Unchanged(full, entries[full]))
    }

    /** The cache does not concern itself with the request. */
    predicate Bypasses(verb: Method, hasRange: bool, path: string) {
      hasRange || verb.Other? || Escapes(Relative(path))
    }

    function Respond(verb: Method, bytes: string): Reply {
      Served(if verb.Head? then "" else bytes, |bytes|)
    }

    /** The cached part of a call: an entry checked within the second is used as it is, an
    older one if the mtime still agrees, and then counts as checked now. */
    method Lookup(full: string) returns (hit: Option<string>)
      requires Valid()
      modifies this`cache
      ensures Valid() && cache - {full} == old(cache) - {full}
      ensures hit.Some? ==> full in cache && hit.value == cache[full].bytes && Recent(trace, full, hit.value, clock)
      ensures hit.Some? <==> Usable(old(cache), full)
      ensures cache == if hit.Some? && !Young(old(cache)[full])
        then old(cache)[full := old(cache)[full].(validatedAt := clock)] else old(cache)
    {
      if full !in cache {
        return None;
      }
      var e := cache[full];
      if Young(e) {
        HeldIsRecent(full, e);
        return Some(e.bytes);
      }
      if !Unchanged(full, e) {
        return None;
      }
      StillThere(full);
      var renewed := e.(validatedAt := clock);
      HeldIsRecent(full, renewed);
      SoundWith(cache, trace, clock, full, renewed);
      cache := cache[full := renewed];
      return Some(e.bytes);
    }

    /** The miss part: a small file is read in. */
    method Load(full: string) returns (hit: Option<string>)
      requires Valid()
      modifies this`cache
      ensures Valid() && cache - {full} == old(cache) - {full}
      ensures hit.Some? <==> Cacheable(full)
      ensures hit.Some? ==> hit.value == disk[full].bytes && Recent(trace, full, hit.value, clock)
      ensures hit.Some? ==> full in cache && cache[full] == CachedFile(hit.value, disk[full].mtime, clock)
      ensures hit.None? ==> cache == old(cache)
    {
      if !Cacheable(full) {
        return None;
      }
      var e := CachedFile(disk[full].bytes, disk[full].mtime, clock);
      assert OnDisk(trace, |trace| - 1, full, e.bytes, e.mtime);
      HeldIsRecent(full, e);
      SoundWith(cache, trace, clock, full, e);
      cache := cache[full := e];
      return Some(e.bytes);
    }

    /** From the cache, or else from the disk. */
    method Fetch(full: string) returns (hit: Option<string>)
      requires Valid()
      modifies this`cache
      ensures Valid() && cache - {full} == old(cache) - {full}
      ensures hit.Some? <==> Usable(old(cache), full) || Cacheable(full)
      ensures hit.Some? ==> Recent(trace, full, hit.value, clock)
      ensures hit.Some? ==> hit.value == if Usable(old(cache), full) then old(cache)[full].bytes else disk[full].bytes
      ensures hit.None? ==> cache == old(cache)
    {
      hit := Lookup(full);
      if hit.None? {
        hit := Load(full);
      }
    }

    /** `CachedServeDir::call`. Whatever is served stood on the disk less than a second ago. */
    method Call(verb: Method, hasRange: bool, path: string) returns (reply: Reply, ghost content: string)
      requires Valid()
      modifies this`cache
      ensures Valid()
      ensures reply.Served? ==> reply == Respond(verb, content) && Recent(trace, FullPath(path), content, clock)
      ensures reply.Served? <==>
        !Bypasses(verb, hasRange, path) && (Usable(old(cache), FullPath(path)) || Cacheable(FullPath(path)))
      ensures reply.Served? ==>
        content == if Usable(old(cache), FullPath(path)) then old(cache)[FullPath(path)].bytes else disk[FullPath(path)].bytes
      ensures reply.Delegated? ==> cache == old(cache)
      ensures cache - {FullPath(path)} == old(cache) - {FullPath(path)}
    {
      if Bypasses(verb, hasRange, path) {
        return Delegated, "";
      }
      var full := FullPath(path);
      var hit := Fetch(full);
      if hit.None? {
        return Delegated, "";
      }
      return Respond(verb, hit.value), hit.value;
    }
  }
}
