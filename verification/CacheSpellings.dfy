/** When the caches can be trusted: exactly when every profile is always named by one spelling of its id. */
module CacheSpellings {
  import opened Options
  import opened PosixPaths
  import opened PathSafety
  import opened ProfileIds
  import opened Storage
  import opened TtlCaches
  import opened CacheCoherence

  // The requests of a run name profiles only by these ids.
  predicate Named(op: Op, ids: set<string>) {
    match op
    case ListDir(p, _, _) => p in ids
    case Stat(p, _, _) => p in ids
    case Remove(p, _) => p in ids
    case _ => true
  }

  ghost predicate RunOver(ws: seq<World>, ops: seq<Op>, ids: set<string>) {
    IsRun(ws, ops) && forall i :: 0 <= i < |ops| ==> Named(ops[i], ids)
  }

  ghost predicate StatHit(ws: seq<World>, ops: seq<Op>, n: nat, p: string, rel: string, ids: set<string>) {
    RunOver(ws, ops, ids) && n <= |ops| && p in ids && Lookup(ws[n].stats, Key(p, rel), ws[n].now).Some?
  }

  ghost predicate ListHit(ws: seq<World>, ops: seq<Op>, n: nat, p: string, rel: string, ids: set<string>) {
    RunOver(ws, ops, ids) && n <= |ops| && p in ids && Lookup(ws[n].lists, Key(p, rel), ws[n].now).Some?
  }

  ghost predicate SomeRecent(ws: seq<World>, ops: seq<Op>, n: nat, p: string, rel: string)
    requires n <= |ops| && |ws| == |ops| + 1 && Lookup(ws[n].lists, Key(p, rel), ws[n].now).Some?
  {
    exists k: nat :: IsRecent(ws, ops, k, n, p, rel, Lookup(ws[n].lists, Key(p, rel), ws[n].now).value)
  }

  /** In every run over these ids a stat hit is fresh, and a list hit recent. */
  ghost predicate StatsCoherent(ids: set<string>) {
    forall ws, ops, n: nat, p, rel :: StatHit(ws, ops, n, p, rel, ids) ==> AnswersFresh(ws[n], p, rel)
  }

  ghost predicate ListsCoherent(ids: set<string>) {
    forall ws, ops, n: nat, p, rel :: ListHit(ws, ops, n, p, rel, ids) ==> SomeRecent(ws, ops, n, p, rel)
  }

  predicate NoTwoSpellings(ids: set<string>) {
    forall p, q :: p in ids && q in ids && Row(p) == Row(q) ==> p == q
  }

  // ---- A profile under two spellings

  const FILE := Entry(Regular, 1, 0)
  const DIR := Entry(Directory, 0, 0)

  // A box with one file in it, and the box after the file was deleted.
  function Full(): Disk {
    map[[] := DIR, ["f"] := FILE]
  }

  function Emptied(): Disk {
    Full() - {["f"]}
  }

  // The base directory of the one profile is the root.
  ghost predicate AtRoot(w: World, row: string) {
    && w.now == 0 && w.disks == map[row := Full()] && w.lists == map[] && w.stats == map[]
    && w.locate(row, "") == Some([]) && w.locate(row, "f") == Some(["f"])
  }

  /** The file is asked for under one spelling and deleted under the other; the cache still has it. */
  lemma StaleStat(w: World, p: string, q: string) returns (ws: seq<World>, ops: seq<Op>)
    requires RequestId(p) && Row(p) == Row(q) && p != q && AtRoot(w, Row(p).value)
    ensures RunOver(ws, ops, {p, q}) && ws[0] == w && |ops| == 2
    ensures Lookup(ws[2].stats, Key(p, "f"), ws[2].now) == Some(Meta(1, 0))
    ensures !AnswersFresh(ws[2], p, "f")
  {
    var w1 := w.(stats := map[Key(p, "f") := Slot(Meta(1, 0), STAT_TTL)]);
    var w2 := w1.(disks := map[Row(p).value := Emptied()]);
    ws, ops := [w, w1, w2], [Stat(p, "f", true), Remove(q, {["f"]})];
    assert StepsTo(ws, ops, 0);
    KeyPrefix(q, p, "f");
    assert Without(w1.stats, q + ":") == w1.stats;
    assert Without(w1.lists, q + ":") == w1.lists;
    assert StepsTo(ws, ops, 1);
    assert ["f"] !in Emptied();
  }

  lemma OneFile(items: seq<Item>)
    requires items == [Item("f", FILE)]
    ensures IsListing(Full(), [], items)
  {
    assert [] + ["f"] == ["f"];
    assert items[0].name == "f";
    forall p | p in Full() && IsChild([], p) ensures Listed(items, p[|p| - 1]) {
      assert p == ["f"];
    }
  }

  lemma EmptiedListing(items: seq<Item>)
    requires IsListing(Emptied(), [], items)
    ensures items == []
  {
    if items != [] {
      NothingThere(items[0]);
    }
  }

  lemma NothingThere(item: Item)
    ensures !Describes(item, Emptied(), [])
  {
    assert [] + [item.name] == [item.name];
  }

  /** The directory is listed under one spelling and the file deleted under the other; the cache still lists it. */
  lemma StaleList(w: World, p: string, q: string) returns (ws: seq<World>, ops: seq<Op>)
    requires RequestId(p) && Row(p) == Row(q) && p != q && AtRoot(w, Row(p).value)
    ensures RunOver(ws, ops, {p, q}) && ws[0] == w && |ops| == 2
    ensures Lookup(ws[2].lists, Key(p, ""), ws[2].now) == Some(Entries("", [Item("f", FILE)]))
    ensures !SomeRecent(ws, ops, 2, p, "")
  {
    var items := [Item("f", FILE)];
    OneFile(items);
    var w1 := w.(lists := map[Key(p, "") := Slot(Entries("", items), LIST_TTL)]);
    var w2 := w1.(disks := map[Row(p).value := Emptied()]);
    ws, ops := [w, w1, w2], [ListDir(p, "", Some(items)), Remove(q, {["f"]})];
    assert StepsTo(ws, ops, 0);
    KeyPrefix(q, p, "");
    assert Without(w1.stats, q + ":") == w1.stats;
    assert Without(w1.lists, q + ":") == w1.lists;
    assert StepsTo(ws, ops, 1);
    forall k: nat | k <= 2 ensures !IsRecent(ws, ops, k, 2, p, "", Entries("", items)) {
      if k == 2 {
        NothingListed(w2, p, Entries("", items));
      } else {
        assert ops[1].Remove? && Row(ops[1].profile) == Row(p);
      }
    }
  }

  lemma NothingListed(w: World, p: string, es: seq<RecordingEntry>)
    requires RequestId(p) && w.disks == map[Row(p).value := Emptied()] && w.locate(Row(p).value, "") == Some([])
    requires es != []
    ensures !IsListingOf(w, p, "", es)
  {
    forall items | IsListing(Emptied(), [], items) ensures Entries("", items) != es {
      EmptiedListing(items);
    }
  }

  // Such a world, where the service locates paths as it does.
  lemma RootWorld(row: string) returns (w: World)
    ensures AtRoot(w, row) && forall rel :: w.locate(row, rel) == Located(map[row := "/"], row, rel)
  {
    var bases := map[row := "/"];
    w := World(0, (r, rel) => Located(bases, r, rel), map[row := Full()], map[], map[]);
    RootLocates(bases, row);
  }

  lemma RootLocates(bases: map<string, string>, row: string)
    requires bases == map[row := "/"]
    ensures Located(bases, row, "") == Some([]) && Located(bases, row, "f") == Some(["f"])
  {
    RootSegments();
    assert Base("/") + ["f"] == ["f"];
    SplitSegment("f");
    var none: seq<string> := [];
    assert AllPlain(["f"]) && ["f"][..0] == none;
    BrowsedPathResolves("/", none);
    BrowsedPathResolves("/", ["f"]);
    assert Browse(none) == "";
    assert Browse(["f"]) == RelJoin("", "f") == "f";
  }

  lemma RootSegments()
    ensures Base("/") == []
  {
    LeadingSlash("");
    ResolveDots();
  }

  // ---- The exact condition

  /** In all runs over these ids stat hits are fresh if and only if no two of them name the same profile; and so it is
  with list hits. */
  lemma CoherentIffOneSpelling(ids: set<string>)
    requires forall p :: p in ids ==> RequestId(p)
    ensures StatsCoherent(ids) <==> NoTwoSpellings(ids)
    ensures ListsCoherent(ids) <==> NoTwoSpellings(ids)
  {
    if NoTwoSpellings(ids) {
      OneSpellingSuffices(ids);
    } else {
      var p, q :| p in ids && q in ids && Row(p) == Row(q) && p != q;
      StatsFail(ids, p, q);
      ListsFail(ids, p, q);
    }
  }

  lemma StatsFail(ids: set<string>, p: string, q: string)
    requires p in ids && q in ids && RequestId(p) && Row(p) == Row(q) && p != q
    ensures !StatsCoherent(ids)
  {
    var w := RootWorld(Row(p).value);
    var ws, ops := StaleStat(w, p, q);
    MoreIds(ws, ops, {p, q}, ids);
    assert StatHit(ws, ops, 2, p, "f", ids);
  }

  lemma MoreIds(ws: seq<World>, ops: seq<Op>, few: set<string>, ids: set<string>)
    requires RunOver(ws, ops, few) && few <= ids
    ensures RunOver(ws, ops, ids)
  {}

  lemma OneRefutes(ids: set<string>, ws: seq<World>, ops: seq<Op>, n: nat, p: string, rel: string)
    requires ListHit(ws, ops, n, p, rel, ids) && !SomeRecent(ws, ops, n, p, rel)
    ensures !ListsCoherent(ids)
  {}

  lemma ListsFail(ids: set<string>, p: string, q: string)
    requires p in ids && q in ids && RequestId(p) && Row(p) == Row(q) && p != q
    ensures !ListsCoherent(ids)
  {
    var w := RootWorld(Row(p).value);
    var ws, ops := StaleList(w, p, q);
    MoreIds(ws, ops, {p, q}, ids);
    OneRefutes(ids, ws, ops, 2, p, "");
  }

  lemma OneSpellingSuffices(ids: set<string>)
    requires (forall p :: p in ids ==> RequestId(p)) && NoTwoSpellings(ids)
    ensures StatsCoherent(ids) && ListsCoherent(ids)
  {
    forall ws, ops, n: nat, p, rel | StatHit(ws, ops, n, p, rel, ids) ensures AnswersFresh(ws[n], p, rel) {
      SpelledOnce(ops, n, p, ids);
      StatHitIsFresh(ws, ops, n, p, rel);
    }
    forall ws, ops, n: nat, p, rel | ListHit(ws, ops, n, p, rel, ids) ensures SomeRecent(ws, ops, n, p, rel) {
      SpelledOnce(ops, n, p, ids);
      var k := ListHitIsRecent(ws, ops, n, p, rel);
    }
  }

  lemma SpelledOnce(ops: seq<Op>, n: nat, p: string, ids: set<string>)
    requires NoTwoSpellings(ids) && p in ids && n <= |ops| && forall i :: 0 <= i < |ops| ==> Named(ops[i], ids)
    ensures OneSpelling(ops, n, p)
  {}
}
