/** The recordings service: listings and stats through the caches, deletion and pruning.  Each request is
proved to be a step of CacheCoherence.  Bases and storage belong to stored profiles, cache keys to the id as the
request spells it. */
module RecordingsService {
  import opened Options
  import opened ProfileIds
  import opened PosixPaths
  import opened PathSafety
  import opened Storage
  import opened SftpClient
  import opened TtlCaches
  import opened CacheCoherence

  // What the storage refuses during one request.
  datatype Faults = Faults(unlistable: set<Path>, undeletable: set<Path>)

  class Service {
    var now: int
    var disks: map<string, Disk>
    const bases: map<string, string>
    ghost const locate: (string, string) -> Option<Path>
    const listCache: TtlCache<seq<RecordingEntry>>
    const statCache: TtlCache<Meta>

    ghost function View(): World
      reads this, listCache, statCache
    {
      World(now, locate, disks, listCache.store, statCache.store)
    }

    ghost predicate Valid()
      reads this
    {
      && listCache.ttl == LIST_TTL && statCache.ttl == STAT_TTL
      && bases.Keys == disks.Keys
      && (forall p :: p in bases ==> IsAbsolute(bases[p]) && WellFormed(disks[p]))
      && (forall p, rel {:trigger Located(bases, p, rel)} :: locate(p, rel) == Located(bases, p, rel))
    }

    constructor (now: int, bases: map<string, string>, disks: map<string, Disk>)
      requires bases.Keys == disks.Keys
      requires forall p :: p in bases ==> IsAbsolute(bases[p]) && WellFormed(disks[p])
      ensures Valid() && CacheCoherence.Fresh(View())
      ensures this.now == now && this.bases == bases && this.disks == disks
    {
      this.now, this.bases, this.disks := now, bases, disks;
      locate := (p, rel) => Located(bases, p, rel);
      listCache := new TtlCache<seq<RecordingEntry>>(LIST_TTL);
      statCache := new TtlCache<Meta>(STAT_TTL);
    }

    // The absolute path of a request; None for an unknown profile or a forbidden path.
    method Find(profile: string, rel: string) returns (abs: Option<string>)
      requires Valid()
      requires RequestId(profile)
      ensures abs.Some? <==> locate(Lower(profile), rel).Some?
      ensures abs.Some? ==> Lower(profile) in disks && Segments(abs.value) == locate(Lower(profile), rel).value
    {
      var row := Lower(profile);
      assert locate(row, rel) == Located(bases, row, rel);
      if row !in bases { return None; }
      var r := ResolveSafe(bases[row], Text(rel));
      abs := if r.Ok? then Some(r.path) else None;
    }

    // Asks the storage for a listing.
    method FetchList(profile: string, rel: string, faults: Faults) returns (answer: Option<seq<Item>>)
      requires Valid() && RequestId(profile)
      ensures Lists(View(), profile, rel, answer, faults)
    {
      var abs := Find(profile, rel);
      if abs.None? { return None; }
      var client := new Client(disks[Lower(profile)], faults.unlistable, faults.undeletable);
      answer := client.List(abs.value);
    }

    method FetchStat(profile: string, rel: string) returns (answer: Option<Entry>)
      requires Valid() && RequestId(profile)
      ensures answer == if Reaches(View(), profile, rel) && Where(View(), profile, rel) in disks[Lower(profile)]
                        then Some(disks[Lower(profile)][Where(View(), profile, rel)]) else None
    {
      var abs := Find(profile, rel);
      if abs.None? { return None; }
      var client := new Client(disks[Lower(profile)], {}, {});
      answer := client.Stat(abs.value);
    }

    // A miss: the answer of the storage goes into the cache.
    method ListMiss(profile: string, rel: string, faults: Faults)
      returns (r: Option<seq<RecordingEntry>>, ghost answer: Option<seq<Item>>)
      requires Valid() && RequestId(profile)
      modifies listCache
      ensures Lists(old(View()), profile, rel, answer, faults)
      ensures r == if answer.Some? then Some(Entries(rel, answer.value)) else None
      ensures listCache.store == if answer.None? then old(listCache.store) else
        old(listCache.store)[Key(profile, rel) := Slot(Entries(rel, answer.value), now + LIST_TTL)]
    {
      var items := FetchList(profile, rel, faults);
      answer := items;
      if items.None? { return None, None; }
      r := Some(Entries(rel, items.value));
      listCache.Set(Key(profile, rel), r.value, now);
    }

    method StatMiss(profile: string, rel: string) returns (r: Option<Meta>)
      requires Valid() && RequestId(profile)
      modifies statCache
      ensures r == if Reaches(old(View()), profile, rel) && Where(old(View()), profile, rel) in disks[Lower(profile)]
                   then Some(MetaOf(disks[Lower(profile)][Where(old(View()), profile, rel)])) else None
      ensures statCache.store == if r.None? then old(statCache.store) else
        old(statCache.store)[Key(profile, rel) := Slot(r.value, now + STAT_TTL)]
    {
      var entry := FetchStat(profile, rel);
      if entry.None? { return None; }
      r := Some(MetaOf(entry.value));
      statCache.Set(Key(profile, rel), r.value, now);
    }

    /** The answer of the storage is asked for, and matters, only when the cache has none. */
    method ListDir(profile: string, rel: string, faults: Faults)
      returns (r: Option<seq<RecordingEntry>>, ghost answer: Option<seq<Item>>)
      requires Valid() && RequestId(profile)
      modifies listCache
      ensures Valid() && Enabled(old(View()), Op.ListDir(profile, rel, answer))
      ensures View() == StepListDir(old(View()), profile, rel, answer)
      ensures r == ListReply(old(View()), profile, rel, answer)
      ensures r.None? && Reaches(old(View()), profile, rel) ==> Unlisted(disks[Lower(profile)], Where(old(View()), profile, rel), faults)
    {
      answer := None;
      r := listCache.Get(Key(profile, rel), now);
      if r.None? {
        r, answer := ListMiss(profile, rel, faults);
      }
    }

    method Stat(profile: string, rel: string) returns (r: Option<Meta>, ghost found: bool)
      requires Valid() && RequestId(profile)
      modifies statCache
      ensures Valid() && Enabled(old(View()), Op.Stat(profile, rel, found))
      ensures View() == StepStat(old(View()), profile, rel, found)
      ensures r == StatReply(old(View()), profile, rel, found)
      ensures r.None? && Reaches(old(View()), profile, rel) ==> Where(old(View()), profile, rel) !in disks[Lower(profile)]
    {
      found := false;
      r := statCache.Get(Key(profile, rel), now);
      if r.None? {
        r := StatMiss(profile, rel);
        found := r.Some?;
      }
    }

    // The end of a request that removed entries: the storage is as the client left it, the caches forget.
    method Removed(profile: string, client: Client, ghost gone: set<Path>)
      requires Valid() && RequestId(profile) && Lower(profile) in disks
      requires Removable(disks[Lower(profile)], gone) && client.disk == disks[Lower(profile)] - gone
      modifies this`disks, listCache, statCache
      ensures Valid() && Enabled(old(View()), Remove(profile, gone))
      ensures View() == StepRemove(old(View()), profile, gone)
    {
      RemovalKeepsTree(disks[Lower(profile)], gone);
      disks := disks[Lower(profile) := client.disk];
      listCache.Invalidate(profile + ":");
      statCache.Invalidate(profile + ":");
    }

    // The absolute paths of a request; None if one of them is forbidden.
    method FindAll(profile: string, rels: seq<string>) returns (abses: Option<seq<string>>)
      requires Valid() && RequestId(profile)
      ensures abses.Some? <==> AllLocated(View(), profile, rels)
      ensures abses.Some? ==> LeadTo(View(), profile, rels, abses.value)
    {
      var out: seq<string> := [];
      for i := 0 to |rels|
        invariant |out| == i
        invariant forall j :: 0 <= j < i ==> LeadsTo(View(), profile, rels[j], out[j])
      {
        var abs := Find(profile, rels[i]);
        if abs.None? { return None; }
        out := out + [abs.value];
      }
      return Some(out);
    }

    // The loop of deleteFiles.
    method DeleteEach(client: Client, abses: seq<string>, ghost paths: seq<Path>) returns (deleted: nat, ghost gone: set<Path>)
      requires |paths| == |abses| && forall i :: 0 <= i < |abses| ==> Segments(abses[i]) == paths[i]
      modifies client
      ensures client.disk == old(client.disk) - gone && deleted == |gone|
      ensures forall p :: p in gone <==> DeletableOf(old(client.disk), paths, client.undeletable, p)
      ensures Removable(old(client.disk), gone)
    {
      deleted, gone := 0, {};
      ghost var disk := client.disk;
      for i := 0 to |abses|
        invariant client.disk == disk - gone && deleted == |gone|
        invariant gone == DeletedBy(disk, paths, client.undeletable, i)
      {
        var ok;
        ok, gone := DeleteNext(client, abses[i], disk, paths, i, gone);
        if ok { deleted := deleted + 1; }
      }
      DeletedAll(disk, paths, client.undeletable);
    }

    // One turn of that loop.
    method DeleteNext(client: Client, abs: string, ghost disk: Disk, ghost paths: seq<Path>, ghost i: nat, ghost gone: set<Path>)
      returns (ok: bool, ghost more: set<Path>)
      requires i < |paths| && Segments(abs) == paths[i]
      requires client.disk == disk - gone && gone == DeletedBy(disk, paths, client.undeletable, i)
      modifies client
      ensures client.disk == disk - more && more == DeletedBy(disk, paths, client.undeletable, i + 1)
      ensures |more| == |gone| + if ok then 1 else 0
    {
      DeletedNext(disk, paths, client.undeletable, i);
      DeleteFacts(disk, gone, paths[i], client.undeletable);
      ok := client.Delete(abs);
      more := if ok then gone + {paths[i]} else gone;
    }

    /** Deletes what it can of the paths and counts it; a forbidden path fails the request before anything
    is deleted. */
    method DeleteFiles(profile: string, rels: seq<string>, faults: Faults)
      returns (r: Option<nat>, ghost gone: set<Path>)
      requires Valid() && RequestId(profile)
      modifies this`disks, listCache, statCache
      ensures Valid()
      ensures r.Some? <==> Lower(profile) in bases && AllLocated(old(View()), profile, rels)
      ensures r.None? ==> View() == old(View())
      ensures r.Some? ==>
        && Enabled(old(View()), Remove(profile, gone)) && View() == StepRemove(old(View()), profile, gone)
        && r.value == |gone|
        && (forall p :: p in gone <==> Deletes(old(View()), profile, rels, faults, p))
    {
      gone := {};
      if Lower(profile) !in bases { return None, {}; }
      var abses := FindAll(profile, rels);
      if abses.None? { return None, {}; }
      var client := new Client(disks[Lower(profile)], faults.unlistable, faults.undeletable);
      var deleted;
      ghost var paths := PathsOf(View(), profile, rels, abses.value);
      deleted, gone := DeleteEach(client, abses.value, paths);
      Removed(profile, client, gone);
      r := Some(deleted);
    }

    method FindBase(profile: string) returns (abs: string)
      requires Valid() && RequestId(profile) && Lower(profile) in bases
      ensures IsAbsolute(abs) && Segments(abs) == Base(bases[Lower(profile)])
    {
      BaseAccepted(bases[Lower(profile)]);
      AcceptedSegments(bases[Lower(profile)], "");
      abs := ResolveSafe(bases[Lower(profile)], Text("")).path;
    }

    method PruneFrom(client: Client, base: string, cutoff: int) returns (ok: bool, ghost gone: set<Path>)
      requires IsAbsolute(base) && WellFormed(client.disk) && client.deleted == 0
      modifies client
      ensures client.disk == old(client.disk) - gone && client.deleted == |gone|
      ensures Removable(old(client.disk), gone)
      ensures ok <==> AllListable(old(client.disk), Segments(base), client.unlistable)
      ensures gone <= Doomed(old(client.disk), Segments(base), cutoff, client.undeletable)
      ensures ok ==> gone == Doomed(old(client.disk), Segments(base), cutoff, client.undeletable)
    {
      ghost var disk := client.disk;
      ok := client.Walk(base, cutoff);
      ghost var doomed := Doomed(disk, Segments(base), cutoff, client.undeletable);
      if ok {
        gone := doomed;
      } else {
        gone :| gone <= doomed && client.disk == disk - gone;
      }
      RemovalKeepsTree(disk, gone);
    }

    /** Removes every entry older than the given days below the base directory, directories aside, and counts
    them; it fails exactly when a directory cannot be listed, and then has removed only such entries. */
    method Prune(profile: string, olderThanDays: int, faults: Faults) returns (r: Option<nat>, ghost gone: set<Path>)
      requires Valid() && RequestId(profile)
      modifies this`disks, listCache, statCache
      ensures Valid()
      ensures Lower(profile) !in bases ==> r.None? && View() == old(View())
      ensures Lower(profile) in bases ==>
        var disk, dir := old(disks)[Lower(profile)], Base(bases[Lower(profile)]);
        var doomed := Doomed(disk, dir, now - olderThanDays * 86_400_000, faults.undeletable);
        && Enabled(old(View()), Remove(profile, gone)) && View() == StepRemove(old(View()), profile, gone)
        && (r.Some? <==> AllListable(disk, dir, faults.unlistable))
        && gone <= doomed && (r.Some? ==> gone == doomed && r.value == |gone|)
    {
      gone := {};
      if Lower(profile) !in bases { return None, {}; }
      var cutoff := now - olderThanDays * 24 * 60 * 60 * 1000;
      var client := new Client(disks[Lower(profile)], faults.unlistable, faults.undeletable);
      var base := FindBase(profile);
      var ok;
      ok, gone := PruneFrom(client, base, cutoff);
      Removed(profile, client, gone);
      r := if ok then Some(client.deleted) else None;
    }
  }

  lemma EntryLocated(bases: map<string, string>, p: string, rel: string, name: string)
    requires p in bases && IsAbsolute(bases[p]) && Located(bases, p, rel).Some? && IsName(name)
    ensures Located(bases, p, RelJoin(rel, name)) == Some(Located(bases, p, rel).value + [name])
  {
    ListedEntryResolves(bases[p], rel, name);
  }

  /** The path of a listed entry leads back to that entry: to a stat, a stream or a delete it means the entry that
  was listed, with the kind, size and time that the listing showed. */
  lemma ListedEntryIsFound(w: World, bases: map<string, string>, p: string, rel: string, items: seq<Item>, i: nat)
    requires Reaches(w, p, rel) && Row(p).value in bases && IsAbsolute(bases[Row(p).value]) && WellFormed(DiskOf(w, p))
    requires forall r {:trigger Located(bases, Row(p).value, r)} ::
      w.locate(Row(p).value, r) == Located(bases, Row(p).value, r)
    requires IsListing(DiskOf(w, p), Where(w, p, rel), items) && i < |items|
    ensures var e := Entries(rel, items)[i];
      && Reaches(w, p, e.path) && Where(w, p, e.path) == Where(w, p, rel) + [e.name]
      && Where(w, p, e.path) in DiskOf(w, p)
      && DiskOf(w, p)[Where(w, p, e.path)] == items[i].entry
      && MetaOf(DiskOf(w, p)[Where(w, p, e.path)]) == Meta(e.size, e.mtime)
      && (e.isDir <==> IsDir(DiskOf(w, p), Where(w, p, e.path)))
  {
    var name, row := items[i].name, Row(p).value;
    assert w.locate(row, rel) == Located(bases, row, rel);
    assert Describes(items[i], DiskOf(w, p), Where(w, p, rel));
    assert WellPlaced(DiskOf(w, p), Where(w, p, rel) + [name]);
    EntryLocated(bases, row, rel, name);
    assert w.locate(row, RelJoin(rel, name)) == Located(bases, row, RelJoin(rel, name));
  }

  // What the storage answers: a listing of the directory, or none for a path that cannot be listed.
  ghost predicate Lists(w: World, profile: string, rel: string, answer: Option<seq<Item>>, faults: Faults) {
    && (answer.Some? ==> Reaches(w, profile, rel) && IsListing(DiskOf(w, profile), Where(w, profile, rel), answer.value))
    && (answer.None? && Reaches(w, profile, rel) ==> Unlisted(DiskOf(w, profile), Where(w, profile, rel), faults))
  }

  // The path is no directory, or refuses to be listed.
  predicate Unlisted(disk: Disk, p: Path, faults: Faults) {
    !IsDir(disk, p) || p in faults.unlistable
  }

  predicate AllLocated(w: World, profile: string, rels: seq<string>) {
    forall i :: 0 <= i < |rels| ==> w.locate(Lower(profile), rels[i]).Some?
  }

  predicate LeadsTo(w: World, profile: string, rel: string, abs: string) {
    w.locate(Lower(profile), rel) == Some(Segments(abs))
  }

  predicate LeadTo(w: World, profile: string, rels: seq<string>, abses: seq<string>) {
    |abses| == |rels| && forall i :: 0 <= i < |rels| ==> LeadsTo(w, profile, rels[i], abses[i])
  }

  predicate CanDelete(disk: Disk, undeletable: set<Path>, p: Path) {
    p in disk && disk[p].kind != Directory && p !in undeletable
  }

  // One of the paths leads to entry p, which can be deleted.
  predicate Deletes(w: World, profile: string, rels: seq<string>, faults: Faults, p: Path) {
    && Lower(profile) in w.disks && CanDelete(w.disks[Lower(profile)], faults.undeletable, p)
    && exists i :: 0 <= i < |rels| && w.locate(Lower(profile), rels[i]) == Some(p)
  }

  predicate DeletableOf(disk: Disk, paths: seq<Path>, undeletable: set<Path>, p: Path) {
    CanDelete(disk, undeletable, p) && exists i :: 0 <= i < |paths| && paths[i] == p
  }

  // What deleting the first k paths removes.
  ghost function DeletedBy(disk: Disk, paths: seq<Path>, undeletable: set<Path>, k: nat): set<Path>
    requires k <= |paths|
  {
    set p | p in disk && DeletableOf(disk, paths[..k], undeletable, p)
  }

  lemma DeletedNext(disk: Disk, paths: seq<Path>, undeletable: set<Path>, k: nat)
    requires k < |paths|
    ensures DeletedBy(disk, paths, undeletable, k + 1) ==
            DeletedBy(disk, paths, undeletable, k) + if CanDelete(disk, undeletable, paths[k]) then {paths[k]} else {}
  {
    assert paths[..k + 1][k] == paths[k];
    assert forall i :: 0 <= i < k ==> paths[..k + 1][i] == paths[..k][i];
  }

  lemma DeletedAll(disk: Disk, paths: seq<Path>, undeletable: set<Path>)
    ensures var gone := DeletedBy(disk, paths, undeletable, |paths|);
      Removable(disk, gone) && forall p :: p in gone <==> DeletableOf(disk, paths, undeletable, p)
  {
    assert paths[..|paths|] == paths;
  }

  lemma DeleteFacts(disk: Disk, gone: set<Path>, p: Path, undeletable: set<Path>)
    ensures CanDelete(disk - gone, undeletable, p) <==> CanDelete(disk, undeletable, p) && p !in gone
    ensures disk - gone - {p} == disk - (gone + {p})
    ensures p in gone ==> gone + {p} == gone
    ensures gone + {} == gone
  {}

  // Where the paths of a request lead; the same entries can be deleted through them.
  ghost function PathsOf(w: World, profile: string, rels: seq<string>, abses: seq<string>): (paths: seq<Path>)
    requires Lower(profile) in w.disks && LeadTo(w, profile, rels, abses)
    ensures |paths| == |abses| && forall i :: 0 <= i < |abses| ==> Segments(abses[i]) == paths[i]
    ensures forall faults: Faults, p ::
      DeletableOf(w.disks[Lower(profile)], paths, faults.undeletable, p) <==> Deletes(w, profile, rels, faults, p)
  {
    assert forall i :: 0 <= i < |rels| ==> LeadsTo(w, profile, rels[i], abses[i]);
    var paths := seq(|rels|, i requires 0 <= i < |rels| => w.locate(Lower(profile), rels[i]).value);
    assert forall faults: Faults, p ::
      DeletableOf(w.disks[Lower(profile)], paths, faults.undeletable, p) <==> Deletes(w, profile, rels, faults, p) by {
      assert forall i :: 0 <= i < |rels| ==> w.locate(Lower(profile), rels[i]) == Some(paths[i]);
    }
    paths
  }
}
