/** The storage box behind one connection, and the recursive walk that prunes it. */
module Storage {
  import opened PosixPaths

  type Path = seq<string>
  datatype Kind = Directory | Regular | Link
  datatype Entry = Entry(kind: Kind, size: nat, mtime: int)
  type Disk = map<Path, Entry>

  // One line of a directory listing.
  datatype Item = Item(name: string, entry: Entry)

  predicate IsDir(disk: Disk, p: Path) {
    p in disk && disk[p].kind == Directory
  }

  // A tree: everything lies in a directory and has a plain name.
  ghost predicate WellFormed(disk: Disk) {
    forall p {:trigger WellPlaced(disk, p)} :: p in disk ==> WellPlaced(disk, p)
  }

  predicate WellPlaced(disk: Disk, p: Path) {
    p != [] ==> Plain(p[|p| - 1]) && IsDir(disk, p[..|p| - 1])
  }

  predicate IsChild(dir: Path, p: Path) {
    |p| == |dir| + 1 && dir <= p
  }

  predicate Below(dir: Path, p: Path) {
    |dir| < |p| && dir <= p
  }

  predicate Describes(item: Item, disk: Disk, dir: Path) {
    dir + [item.name] in disk && disk[dir + [item.name]] == item.entry
  }

  // The items are the entries of the directory, each once, in some order.
  ghost predicate IsListing(disk: Disk, dir: Path, items: seq<Item>) {
    && (forall i :: 0 <= i < |items| ==> Describes(items[i], disk, dir))
    && (forall i, j :: 0 <= i < j < |items| ==> items[i].name != items[j].name)
    && (forall p {:trigger IsChild(dir, p)} :: p in disk && IsChild(dir, p) ==> Listed(items, p[|p| - 1]))
  }

  ghost predicate Listed(items: seq<Item>, name: string) {
    exists i :: 0 <= i < |items| && items[i].name == name
  }

  lemma {:induction false} AncestorIsDir(disk: Disk, dir: Path, p: Path)
    requires WellFormed(disk) && p in disk && Below(dir, p)
    ensures IsDir(disk, dir) && IsDir(disk, p[..|p| - 1])
    ensures p[..|dir| + 1] in disk && IsChild(dir, p[..|dir| + 1])
    decreases |p|
  {
    var up := p[..|p| - 1];
    assert WellPlaced(disk, p);
    if |dir| < |up| {
      AncestorIsDir(disk, dir, up);
      assert up[..|dir| + 1] == p[..|dir| + 1];
    } else {
      assert up == dir && p[..|dir| + 1] == p;
    }
  }

  // ---- Removing entries that are not directories

  predicate Removable(disk: Disk, gone: set<Path>) {
    forall p :: p in gone ==> p in disk && disk[p].kind != Directory
  }

  lemma RemovalKeepsTree(disk: Disk, gone: set<Path>)
    requires WellFormed(disk) && Removable(disk, gone)
    ensures WellFormed(disk - gone) && |disk - gone| == |disk| - |gone|
  {
    assert (disk - gone).Keys == disk.Keys - gone;
    assert gone <= disk.Keys;
    forall p | p in disk - gone ensures WellPlaced(disk - gone, p) {
      assert WellPlaced(disk, p);
    }
  }

  // ---- What prune is to remove

  // An entry below dir, not a directory, older than the cutoff.
  predicate Old(disk: Disk, dir: Path, cutoff: int, p: Path) {
    p in disk && Below(dir, p) && disk[p].kind != Directory && disk[p].mtime < cutoff
  }

  function Doomed(disk: Disk, dir: Path, cutoff: int, undeletable: set<Path>): (gone: set<Path>)
    ensures Removable(disk, gone)
  {
    set p | p in disk && Old(disk, dir, cutoff, p) && p !in undeletable
  }

  // No directory from dir down refuses to be listed.
  ghost predicate AllListable(disk: Disk, dir: Path, unlistable: set<Path>) {
    IsDir(disk, dir) && forall d :: IsDir(disk, d) && dir <= d ==> d !in unlistable
  }

  function Subtree(disk: Disk, dir: Path): set<Path> {
    set p | p in disk && dir <= p
  }

  // The part of the doomed entries that the given names lead to.
  function DoomedVia(disk: Disk, dir: Path, cutoff: int, undeletable: set<Path>, names: set<string>): set<Path> {
    set p | p in Doomed(disk, dir, cutoff, undeletable) && p[|dir|] in names
  }

  ghost function Names(items: seq<Item>): set<string> {
    set i | 0 <= i < |items| :: items[i].name
  }

  lemma DoomedViaAll(disk: Disk, dir: Path, cutoff: int, undeletable: set<Path>, items: seq<Item>)
    requires WellFormed(disk) && IsListing(disk, dir, items)
    ensures DoomedVia(disk, dir, cutoff, undeletable, Names(items)) == Doomed(disk, dir, cutoff, undeletable)
  {
    forall p | p in Doomed(disk, dir, cutoff, undeletable) ensures p[|dir|] in Names(items) {
      AncestorIsDir(disk, dir, p);
      assert Listed(items, p[..|dir| + 1][|dir|]);
    }
  }

  // What one entry of dir adds: everything doomed below it, if it is a directory, or the entry itself.
  function DoomedAt(disk: Disk, child: Path, cutoff: int, undeletable: set<Path>): set<Path>
    requires child in disk
  {
    if disk[child].kind == Directory then Doomed(disk, child, cutoff, undeletable)
    else if disk[child].mtime < cutoff && child !in undeletable then {child}
    else {}
  }

  lemma DoomedViaOne(disk: Disk, dir: Path, cutoff: int, undeletable: set<Path>, name: string)
    requires WellFormed(disk) && dir + [name] in disk
    ensures DoomedVia(disk, dir, cutoff, undeletable, {name}) == DoomedAt(disk, dir + [name], cutoff, undeletable)
  {
    var child := dir + [name];
    assert child[|dir|] == name;
    forall p | p in DoomedVia(disk, dir, cutoff, undeletable, {name}) ensures p in DoomedAt(disk, child, cutoff, undeletable) {
      assert p[..|dir| + 1] == child;
      if |p| == |dir| + 1 {
        assert p == child;
      } else {
        AncestorIsDir(disk, child, p);
      }
    }
    forall p | p in DoomedAt(disk, child, cutoff, undeletable) ensures p in DoomedVia(disk, dir, cutoff, undeletable, {name}) {
      assert p[|dir|] == child[|dir|];
    }
  }

  // Removing what other names lead to leaves an entry, and what is doomed below it, as they were.
  lemma DoomedAtOthers(disk: Disk, dir: Path, cutoff: int, undeletable: set<Path>, names: set<string>, name: string)
    requires dir + [name] in disk && name !in names
    ensures var now := disk - DoomedVia(disk, dir, cutoff, undeletable, names); var child := dir + [name];
      && child in now && now[child] == disk[child]
      && DoomedAt(now, child, cutoff, undeletable) == DoomedAt(disk, child, cutoff, undeletable)
      && Subtree(now, child) == Subtree(disk, child)
  {}

  lemma DoomedViaNext(disk: Disk, dir: Path, cutoff: int, undeletable: set<Path>, names: set<string>, name: string)
    requires WellFormed(disk) && dir + [name] in disk && name !in names
    ensures disk - DoomedVia(disk, dir, cutoff, undeletable, names + {name}) ==
      disk - DoomedVia(disk, dir, cutoff, undeletable, names) - DoomedAt(disk, dir + [name], cutoff, undeletable)
  {
    DoomedViaOne(disk, dir, cutoff, undeletable, name);
    assert DoomedVia(disk, dir, cutoff, undeletable, names + {name}) ==
      DoomedVia(disk, dir, cutoff, undeletable, names) + DoomedVia(disk, dir, cutoff, undeletable, {name});
  }
}
