/** A connection to the storage box: list, stat, delete, and the walk of `prune`.  Paths arrive as strings
and denote what they resolve to. */
module SftpClient {
  import opened Options
  import opened PosixPaths
  import opened Storage

  // What prune left behind, if some of its work was cut short.
  ghost predicate PrunedPartly(before: Disk, after: Disk, dir: Path, cutoff: int, undeletable: set<Path>) {
    exists gone :: gone <= Doomed(before, dir, cutoff, undeletable) && after == before - gone
  }

  // A listed directory and everything below it can be listed.
  ghost predicate ItemListable(disk: Disk, dir: Path, unlistable: set<Path>, item: Item) {
    item.entry.kind == Directory ==> AllListable(disk, dir + [item.name], unlistable)
  }

  lemma ChildSegments(dir: string, name: string)
    requires IsAbsolute(dir) && Plain(name)
    ensures IsAbsolute(dir + "/" + name) && Segments(dir + "/" + name) == Segments(dir) + [name]
  {
    SplitConcat(dir, name);
    SplitSegment(name);
    ResolveConcat([], Split(dir), [name], false);
    var none: seq<string> := [name][1..];
  }

  // A directory is walked to its end exactly when each of its entries is.
  lemma ListableByItems(disk: Disk, dir: Path, unlistable: set<Path>, items: seq<Item>)
    requires WellFormed(disk) && IsListing(disk, dir, items) && IsDir(disk, dir) && dir !in unlistable
    ensures (forall j :: 0 <= j < |items| ==> ItemListable(disk, dir, unlistable, items[j])) <==> AllListable(disk, dir, unlistable)
  {
    if forall j :: 0 <= j < |items| ==> ItemListable(disk, dir, unlistable, items[j]) {
      forall d | IsDir(disk, d) && dir <= d ensures d !in unlistable {
        if |d| == |dir| {
          assert d == dir;
        } else {
          ItemAbove(disk, dir, items, d);
          var j :| 0 <= j < |items| && items[j].entry.kind == Directory && dir + [items[j].name] <= d;
          assert ItemListable(disk, dir, unlistable, items[j]);
        }
      }
    }
    if AllListable(disk, dir, unlistable) {
      forall j | 0 <= j < |items| ensures ItemListable(disk, dir, unlistable, items[j]) {
        assert dir <= dir + [items[j].name];
      }
    }
  }

  lemma ItemAbove(disk: Disk, dir: Path, items: seq<Item>, d: Path)
    requires WellFormed(disk) && IsListing(disk, dir, items) && IsDir(disk, d) && Below(dir, d)
    ensures exists j :: 0 <= j < |items| && items[j].entry.kind == Directory && dir + [items[j].name] <= d
  {
    AncestorIsDir(disk, dir, d);
    var child := d[..|dir| + 1];
    assert Listed(items, child[|dir|]);
    var j :| 0 <= j < |items| && items[j].name == child[|dir|];
    assert dir + [items[j].name] == child;
    if |d| > |child| {
      AncestorIsDir(disk, child, d);
    } else {
      assert child == d;
    }
  }

  // What is left when the first k items have been visited.
  ghost function AfterItems(disk: Disk, dir: Path, cutoff: int, undeletable: set<Path>, items: seq<Item>, k: nat): Disk
    requires k <= |items|
  {
    disk - DoomedVia(disk, dir, cutoff, undeletable, Names(items[..k]))
  }

  lemma AfterNoItem(disk: Disk, dir: Path, cutoff: int, undeletable: set<Path>, items: seq<Item>)
    ensures AfterItems(disk, dir, cutoff, undeletable, items, 0) == disk
    ensures PrunedPartly(disk, disk, dir, cutoff, undeletable)
  {
    DoomedViaNone(disk, dir, cutoff, undeletable, items);
  }

  lemma AfterAllItems(disk: Disk, dir: Path, cutoff: int, undeletable: set<Path>, items: seq<Item>)
    ensures AfterItems(disk, dir, cutoff, undeletable, items, |items|) ==
            disk - DoomedVia(disk, dir, cutoff, undeletable, Names(items))
  {
    assert items[..|items|] == items;
  }

  lemma DoomedViaNone(disk: Disk, dir: Path, cutoff: int, undeletable: set<Path>, items: seq<Item>)
    ensures disk - DoomedVia(disk, dir, cutoff, undeletable, Names(items[..0])) == disk
    ensures PrunedPartly(disk, disk, dir, cutoff, undeletable)
  {}

  lemma DoomedViaPartly(disk: Disk, dir: Path, cutoff: int, undeletable: set<Path>, names: set<string>)
    ensures PrunedPartly(disk, disk - DoomedVia(disk, dir, cutoff, undeletable, names), dir, cutoff, undeletable)
  {}

  // Removing entries that are not directories leaves every directory as it was.
  lemma SameListable(before: Disk, after: Disk, gone: set<Path>, dir: Path, unlistable: set<Path>)
    requires Removable(before, gone) && after == before - gone
    ensures AllListable(before, dir, unlistable) <==> AllListable(after, dir, unlistable)
  {}

  lemma SubtreeShrinks(disk: Disk, dir: Path, name: string)
    requires dir in disk
    ensures Subtree(disk, dir + [name]) < Subtree(disk, dir)
  {
    assert dir in Subtree(disk, dir) && dir !in Subtree(disk, dir + [name]);
    forall p | p in Subtree(disk, dir + [name]) ensures dir <= p {
    }
  }

  // Deleting the entry that an item names, if it is old, is what the item adds.
  lemma VisitFacts(dir: string, item: Item, cutoff: int, before: Disk, undeletable: set<Path>, names: set<string>)
    requires IsAbsolute(dir) && WellFormed(before) && item.name !in names
    requires var child := Segments(dir) + [item.name]; child in before && before[child] == item.entry
    ensures var full := dir + "/" + item.name; IsAbsolute(full) && Segments(full) == Segments(dir) + [item.name]
    ensures var path := Segments(dir);
      var now := before - DoomedVia(before, path, cutoff, undeletable, names);
      var after := before - DoomedVia(before, path, cutoff, undeletable, names + {item.name});
      var child := path + [item.name];
      && WellFormed(now) && child in now && now[child] == item.entry
      && (item.entry.kind != Directory ==>
            && WellFormed(after) && PrunedPartly(before, after, path, cutoff, undeletable)
            && after == if item.entry.mtime < cutoff && child !in undeletable then now - {child} else now)
  {
    var path := Segments(dir);
    var child := path + [item.name];
    assert WellPlaced(before, child) && child[|child| - 1] == item.name;
    ChildSegments(dir, item.name);
    RemovalKeepsTree(before, DoomedVia(before, path, cutoff, undeletable, names));
    RemovalKeepsTree(before, DoomedVia(before, path, cutoff, undeletable, names + {item.name}));
    DoomedAtOthers(before, path, cutoff, undeletable, names, item.name);
    DoomedViaNext(before, path, cutoff, undeletable, names, item.name);
    DoomedViaPartly(before, path, cutoff, undeletable, names + {item.name});
    assert before - DoomedVia(before, path, cutoff, undeletable, names) - {} ==
      before - DoomedVia(before, path, cutoff, undeletable, names);
  }

  // What a walk of one directory entry removes belongs to what the parent's walk may remove.
  lemma PartlyMore(before: Disk, after: Disk, dir: Path, name: string, cutoff: int, undeletable: set<Path>, gone: set<Path>)
    requires dir + [name] in before && gone <= Doomed(before, dir, cutoff, undeletable)
    requires PrunedPartly(before - gone, after, dir + [name], cutoff, undeletable)
    ensures PrunedPartly(before, after, dir, cutoff, undeletable)
  {
    var more :| more <= Doomed(before - gone, dir + [name], cutoff, undeletable) && after == before - gone - more;
    assert gone + more <= Doomed(before, dir, cutoff, undeletable);
    assert after == before - (gone + more);
  }

  lemma ItemsDiffer(items: seq<Item>, k: nat)
    requires k < |items| && forall i, j :: 0 <= i < j < |items| ==> items[i].name != items[j].name
    ensures items[k].name !in Names(items[..k]) && Names(items[..k + 1]) == Names(items[..k]) + {items[k].name}
  {}

  // The items describe just the entries in `done`, each once.
  ghost predicate ListedSoFar(disk: Disk, dir: Path, done: set<Path>, items: seq<Item>) {
    && (forall i :: 0 <= i < |items| ==> Describes(items[i], disk, dir))
    && (forall i, j :: 0 <= i < j < |items| ==> items[i].name != items[j].name)
    && (forall name :: Listed(items, name) <==> dir + [name] in done)
    && (forall p :: p in done ==> IsChild(dir, p))
  }

  lemma ListOneMore(disk: Disk, dir: Path, done: set<Path>, items: seq<Item>, p: Path)
    requires ListedSoFar(disk, dir, done, items) && p in disk && IsChild(dir, p) && p !in done
    ensures ListedSoFar(disk, dir, done + {p}, items + [Item(p[|p| - 1], disk[p])])
  {
    var item := Item(p[|p| - 1], disk[p]);
    assert p == dir + [item.name];
    assert !Listed(items, item.name);
    forall name ensures Listed(items + [item], name) <==> dir + [name] in done + {p} {
      ListedAppend(items, item, name);
      assert dir + [name] == p <==> name == item.name by {
        assert (dir + [name])[|dir|] == name && p[|dir|] == item.name;
      }
    }
    assert Describes(item, disk, dir);
  }

  lemma ListedAppend(items: seq<Item>, item: Item, name: string)
    ensures Listed(items + [item], name) <==> Listed(items, name) || item.name == name
  {
    if item.name == name {
      assert (items + [item])[|items|].name == name;
    }
    if Listed(items, name) {
      var i :| 0 <= i < |items| && items[i].name == name;
      assert (items + [item])[i].name == name;
    }
  }

  lemma ListedAll(disk: Disk, dir: Path, all: set<Path>, items: seq<Item>)
    requires ListedSoFar(disk, dir, all - {}, items) && all == set p | p in disk && IsChild(dir, p)
    ensures IsListing(disk, dir, items)
  {
    forall p | p in disk && IsChild(dir, p) ensures Listed(items, p[|p| - 1]) {
      assert dir + [p[|p| - 1]] == p;
    }
  }

  class Client {
    var disk: Disk
    var deleted: nat
    const unlistable: set<Path>
    const undeletable: set<Path>

    constructor (disk: Disk, unlistable: set<Path>, undeletable: set<Path>)
      ensures this.disk == disk && deleted == 0
      ensures this.unlistable == unlistable && this.undeletable == undeletable
    {
      this.disk, this.deleted, this.unlistable, this.undeletable := disk, 0, unlistable, undeletable;
    }

    method List(abs: string) returns (r: Option<seq<Item>>)
      ensures r.Some? <==> IsDir(disk, Segments(abs)) && Segments(abs) !in unlistable
      ensures r.Some? ==> IsListing(disk, Segments(abs), r.value)
    {
      var dir := Segments(abs);
      if !IsDir(disk, dir) || dir in unlistable { return None; }
      var items: seq<Item> := [];
      var left := set p | p in disk && IsChild(dir, p);
      ghost var all := left;
      while left != {}
        invariant left <= all && ListedSoFar(disk, dir, all - left, items)
        decreases left
      {
        var p :| p in left;
        ListOneMore(disk, dir, all - left, items, p);
        assert all - (left - {p}) == all - left + {p};
        items, left := items + [Item(p[|p| - 1], disk[p])], left - {p};
      }
      ListedAll(disk, dir, all, items);
      return Some(items);
    }

    method Stat(abs: string) returns (r: Option<Entry>)
      ensures r == if Segments(abs) in disk then Some(disk[Segments(abs)]) else None
    {
      var p := Segments(abs);
      r := if p in disk then Some(disk[p]) else None;
    }

    method Delete(abs: string) returns (ok: bool)
      modifies this`disk
      ensures var p := Segments(abs);
        && (ok <==> p in old(disk) && old(disk)[p].kind != Directory && p !in undeletable)
        && disk == if ok then old(disk) - {p} else old(disk)
    {
      var p := Segments(abs);
      ok := p in disk && disk[p].kind != Directory && p !in undeletable;
      if ok { disk := disk - {p}; }
    }

    // One turn of the loop of walk: a directory is walked, an old entry of another kind is deleted.
    method VisitItem(dir: string, item: Item, cutoff: int, ghost before: Disk, ghost names: set<string>) returns (ok: bool)
      requires Visiting(dir, item, cutoff, before, names)
      modifies this
      ensures WellFormed(disk)
      ensures deleted + |disk| == old(deleted) + |old(disk)|
      ensures PrunedPartly(before, disk, Segments(dir), cutoff, undeletable)
      ensures ok <==> ItemListable(before, Segments(dir), unlistable, item)
      ensures ok ==> disk == before - DoomedVia(before, Segments(dir), cutoff, undeletable, names + {item.name})
      decreases Subtree(before, Segments(dir)), 0, 1
    {
      var full := dir + "/" + item.name;
      VisitFacts(dir, item, cutoff, before, undeletable, names);
      if item.entry.kind == Directory {
        ok := VisitDirectory(full, dir, item, cutoff, before, names);
      } else {
        ok := true;
        if item.entry.mtime < cutoff {
          var removed := Delete(full);
          if removed { deleted := deleted + 1; }
        }
      }
    }

    method VisitDirectory(full: string, ghost dir: string, ghost item: Item, cutoff: int, ghost before: Disk,
                          ghost names: set<string>) returns (ok: bool)
      requires Visiting(dir, item, cutoff, before, names) && item.entry.kind == Directory
      requires IsAbsolute(full) && Segments(full) == Segments(dir) + [item.name] && WellFormed(disk)
      modifies this
      ensures WellFormed(disk)
      ensures deleted + |disk| == old(deleted) + |old(disk)|
      ensures PrunedPartly(before, disk, Segments(dir), cutoff, undeletable)
      ensures ok <==> ItemListable(before, Segments(dir), unlistable, item)
      ensures ok ==> disk == before - DoomedVia(before, Segments(dir), cutoff, undeletable, names + {item.name})
      decreases Subtree(before, Segments(dir)), 0, 0
    {
      ghost var path, gone := Segments(dir), DoomedVia(before, Segments(dir), cutoff, undeletable, names);
      SubtreeShrinks(before, path, item.name);
      DoomedAtOthers(before, path, cutoff, undeletable, names, item.name);
      DoomedViaNext(before, path, cutoff, undeletable, names, item.name);
      ok := Walk(full, cutoff);
      SameListable(before, before - gone, gone, path + [item.name], unlistable);
      PartlyMore(before, disk, path, item.name, cutoff, undeletable, gone);
    }

    // The state in which an item of the listing of dir is visited: what the earlier names lead to is gone.
    ghost predicate Visiting(dir: string, item: Item, cutoff: int, before: Disk, names: set<string>)
      reads this
    {
      && IsAbsolute(dir) && WellFormed(before) && IsDir(before, Segments(dir)) && item.name !in names
      && (var child := Segments(dir) + [item.name]; child in before && before[child] == item.entry)
      && disk == before - DoomedVia(before, Segments(dir), cutoff, undeletable, names)
    }

    // The loop of walk over a listing.
    method WalkItems(dir: string, items: seq<Item>, cutoff: int) returns (ok: bool)
      requires IsAbsolute(dir) && WellFormed(disk) && IsDir(disk, Segments(dir))
      requires IsListing(disk, Segments(dir), items)
      modifies this
      ensures WellFormed(disk)
      ensures deleted + |disk| == old(deleted) + |old(disk)|
      ensures PrunedPartly(old(disk), disk, Segments(dir), cutoff, undeletable)
      ensures ok <==> forall j :: 0 <= j < |items| ==> ItemListable(old(disk), Segments(dir), unlistable, items[j])
      ensures ok ==> disk == old(disk) - DoomedVia(old(disk), Segments(dir), cutoff, undeletable, Names(items))
      decreases Subtree(disk, Segments(dir)), 1
    {
      ghost var before, path := disk, Segments(dir);
      var k := 0;
      AfterNoItem(before, path, cutoff, undeletable, items);
      while k < |items|
        invariant 0 <= k <= |items|
        invariant WellFormed(disk) && deleted + |disk| == old(deleted) + |before|
        invariant disk == AfterItems(before, path, cutoff, undeletable, items, k)
        invariant PrunedPartly(before, disk, path, cutoff, undeletable)
        invariant forall j :: 0 <= j < k ==> ItemListable(before, path, unlistable, items[j])
      {
        ok := VisitNext(dir, items, k, cutoff, before);
        if !ok { return; }
        k := k + 1;
      }
      AfterAllItems(before, path, cutoff, undeletable, items);
      ok := true;
    }

    // One turn of that loop, on item k.
    method VisitNext(dir: string, items: seq<Item>, k: nat, cutoff: int, ghost before: Disk) returns (ok: bool)
      requires IsAbsolute(dir) && WellFormed(before) && IsDir(before, Segments(dir)) && WellFormed(disk)
      requires IsListing(before, Segments(dir), items) && k < |items|
      requires disk == AfterItems(before, Segments(dir), cutoff, undeletable, items, k)
      modifies this
      ensures WellFormed(disk)
      ensures deleted + |disk| == old(deleted) + |old(disk)|
      ensures PrunedPartly(before, disk, Segments(dir), cutoff, undeletable)
      ensures ok <==> ItemListable(before, Segments(dir), unlistable, items[k])
      ensures ok ==> disk == AfterItems(before, Segments(dir), cutoff, undeletable, items, k + 1)
      decreases Subtree(before, Segments(dir)), 0, 2
    {
      ItemsDiffer(items, k);
      assert Describes(items[k], before, Segments(dir));
      ok := VisitItem(dir, items[k], cutoff, before, Names(items[..k]));
    }

    /** The recursion of prune.  It fails exactly when some directory refuses to be listed; otherwise just the
    doomed entries are gone. */
    method Walk(dir: string, cutoff: int) returns (ok: bool)
      requires IsAbsolute(dir) && WellFormed(disk)
      modifies this
      ensures WellFormed(disk)
      ensures deleted + |disk| == old(deleted) + |old(disk)|
      ensures PrunedPartly(old(disk), disk, Segments(dir), cutoff, undeletable)
      ensures ok <==> AllListable(old(disk), Segments(dir), unlistable)
      ensures ok ==> disk == old(disk) - Doomed(old(disk), Segments(dir), cutoff, undeletable)
      decreases Subtree(disk, Segments(dir)), 2
    {
      DoomedViaNone(disk, Segments(dir), cutoff, undeletable, []);
      var listing := List(dir);
      if listing.None? { return false; }
      DoomedViaAll(disk, Segments(dir), cutoff, undeletable, listing.value);
      ListableByItems(disk, Segments(dir), unlistable, listing.value);
      ok := WalkItems(dir, listing.value, cutoff);
    }
  }
}
