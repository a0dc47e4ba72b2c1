/** The cached view of the storage, over any sequence of atomic requests, clock ticks and uploads: what a
cache hit says about the storage behind it.  The caches go by the profile id as a request spells it, and the
storage by the row that the id names, so that deletes under another spelling are the crucial case. */
module CacheCoherence {
  import opened Options
  import opened ProfileIds
  import opened PosixPaths
  import opened PathSafety
  import opened Storage
  import opened TtlCaches

  datatype RecordingEntry = RecordingEntry(name: string, path: string, isDir: bool, size: nat, mtime: int)
  datatype Meta = Meta(size: nat, mtime: int)

  const LIST_TTL := 10_000
  const STAT_TTL := 300_000

  /** The service and its surroundings: the clock, where a request path of a stored profile leads, the storage of
  each stored profile, and the two caches.  Nothing here depends on how paths are located. */
  datatype World = World(
    now: int, locate: (string, string) -> Option<Path>, disks: map<string, Disk>,
    lists: Store<seq<RecordingEntry>>, stats: Store<Meta>)

  /** The service locates paths with resolveSafe, from the base directory of the profile. */
  function Located(bases: map<string, string>, p: string, rel: string): Option<Path> {
    if p in bases && ResolveSafe(bases[p], Text(rel)).Ok? then Some(Segments(ResolveSafe(bases[p], Text(rel)).path))
    else None
  }

  /** `answer` is what the storage lists, if it does; `found` says whether it can stat the path; `gone` are
  the entries that a delete or a prune removed. */
  datatype Op =
    | ListDir(profile: string, rel: string, answer: Option<seq<Item>>)
    | Stat(profile: string, rel: string, found: bool)
    | Remove(profile: string, gone: set<Path>)
    | Tick(ms: nat)
    | Upload(profile: string, path: Path, entry: Entry)
    | Touch(profile: string, path: Path, size: nat, mtime: int)

  // An id that the guard lets through.
  predicate RequestId(p: string) {
    Row(p).Some?
  }

  function Key(p: string, rel: string): string {
    p + ":" + rel
  }

  function BeforeColon(s: string): string {
    if s == "" || s[0] == ':' then "" else [s[0]] + BeforeColon(s[1..])
  }

  lemma {:induction false} ColonEndsId(p: string, rest: string)
    requires ':' !in p
    ensures BeforeColon(p + ":" + rest) == p
  {
    if p != "" {
      assert (p + ":" + rest)[0] == p[0] && (p + ":" + rest)[1..] == p[1..] + ":" + rest;
      assert p[0] in p && forall ch :: ch in p[1..] ==> ch in p;
      ColonEndsId(p[1..], rest);
    }
  }

  /** A key begins with the prefix of an id exactly when it was made for that spelling of the id. */
  lemma KeyPrefix(p: string, q: string, rel: string)
    requires RequestId(p) && RequestId(q)
    ensures p + ":" <= Key(q, rel) <==> p == q
  {
    NoColon(p);
    NoColon(q);
    ColonEndsId(q, rel);
    if p + ":" <= Key(q, rel) {
      var rest := Key(q, rel)[|p| + 1..];
      assert Key(q, rel) == p + ":" + rest;
      ColonEndsId(p, rest);
    }
  }

  lemma KeyInjective(p: string, rel: string, q: string, rel': string)
    requires RequestId(p) && RequestId(q) && Key(p, rel) == Key(q, rel')
    ensures p == q && rel == rel'
  {
    NoColon(p);
    NoColon(q);
    ColonEndsId(p, rel);
    ColonEndsId(q, rel');
    assert Key(p, rel)[|p| + 1..] == rel && Key(q, rel')[|q| + 1..] == rel';
  }

  // The request path is accepted, and where it leads.
  predicate Reaches(w: World, p: string, rel: string) {
    Row(p).Some? && Row(p).value in w.disks && w.locate(Row(p).value, rel).Some?
  }

  function Where(w: World, p: string, rel: string): Path
    requires Reaches(w, p, rel)
  {
    w.locate(Row(p).value, rel).value
  }

  // The storage of the profile that the id names.
  function DiskOf(w: World, p: string): Disk
    requires Row(p).Some? && Row(p).value in w.disks
  {
    w.disks[Row(p).value]
  }

  function ToEntry(rel: string, i: Item): RecordingEntry {
    RecordingEntry(i.name, RelJoin(rel, i.name), i.entry.kind == Directory, i.entry.size, i.entry.mtime)
  }

  function Entries(rel: string, items: seq<Item>): (es: seq<RecordingEntry>)
    ensures |es| == |items| && forall i :: 0 <= i < |items| ==> es[i] == ToEntry(rel, items[i])
  {
    if items == [] then [] else [ToEntry(rel, items[0])] + Entries(rel, items[1..])
  }

  ghost predicate Enabled(w: World, op: Op) {
    match op
    case ListDir(p, rel, answer) =>
      RequestId(p) && (answer.Some? ==> Reaches(w, p, rel) && IsListing(DiskOf(w, p), Where(w, p, rel), answer.value))
    case Stat(p, rel, found) =>
      RequestId(p) && (found ==> Reaches(w, p, rel) && Where(w, p, rel) in DiskOf(w, p))
    case Remove(p, gone) => RequestId(p) && Row(p).value in w.disks && Removable(DiskOf(w, p), gone)
    case Tick(_) => true
    case Upload(row, path, _) =>
      && row in w.disks && path != [] && Plain(path[|path| - 1]) && path !in w.disks[row]
      && IsDir(w.disks[row], path[..|path| - 1])
    case Touch(row, path, _, _) => row in w.disks && IsDir(w.disks[row], path)
  }

  function StepListDir(w: World, p: string, rel: string, answer: Option<seq<Item>>): World {
    var key := Key(p, rel);
    var lists := Swept(w.lists, key, w.now);
    if Lookup(w.lists, key, w.now).Some? || answer.None? then w.(lists := lists)
    else w.(lists := lists[key := Slot(Entries(rel, answer.value), w.now + LIST_TTL)])
  }

  function MetaOf(e: Entry): Meta {
    Meta(e.size, e.mtime)
  }

  function StepStat(w: World, p: string, rel: string, found: bool): World
    requires found ==> Reaches(w, p, rel) && Where(w, p, rel) in DiskOf(w, p)
  {
    var key := Key(p, rel);
    var stats := Swept(w.stats, key, w.now);
    if Lookup(w.stats, key, w.now).Some? || !found then w.(stats := stats)
    else w.(stats := stats[key := Slot(MetaOf(DiskOf(w, p)[Where(w, p, rel)]), w.now + STAT_TTL)])
  }

  function StepRemove(w: World, p: string, gone: set<Path>): World
    requires Row(p).Some? && Row(p).value in w.disks
  {
    w.(disks := w.disks[Row(p).value := DiskOf(w, p) - gone],
       lists := Without(w.lists, p + ":"), stats := Without(w.stats, p + ":"))
  }

  function Step(w: World, op: Op): World
    requires Enabled(w, op)
  {
    match op
    case ListDir(p, rel, answer) => StepListDir(w, p, rel, answer)
    case Stat(p, rel, found) => StepStat(w, p, rel, found)
    case Remove(p, gone) => StepRemove(w, p, gone)
    case Tick(ms) => w.(now := w.now + ms)
    case Upload(row, path, entry) => w.(disks := w.disks[row := w.disks[row][path := entry]])
    case Touch(row, path, size, mtime) =>
      w.(disks := w.disks[row := w.disks[row][path := Entry(Directory, size, mtime)]])
  }

  // What the callers of listDir and stat get; None stands for every error.
  function ListReply(w: World, p: string, rel: string, answer: Option<seq<Item>>): Option<seq<RecordingEntry>> {
    var hit := Lookup(w.lists, Key(p, rel), w.now);
    if hit.Some? then hit else if answer.Some? then Some(Entries(rel, answer.value)) else None
  }

  function StatReply(w: World, p: string, rel: string, found: bool): Option<Meta>
    requires found ==> Reaches(w, p, rel) && Where(w, p, rel) in DiskOf(w, p)
  {
    var hit := Lookup(w.stats, Key(p, rel), w.now);
    if hit.Some? then hit else if found then Some(MetaOf(DiskOf(w, p)[Where(w, p, rel)])) else None
  }

  // ---- Runs

  predicate Fresh(w: World) {
    w.lists == map[] && w.stats == map[]
  }

  ghost predicate StepsTo(ws: seq<World>, ops: seq<Op>, i: nat)
    requires i < |ops| && i + 1 < |ws|
  {
    Enabled(ws[i], ops[i]) && ws[i + 1] == Step(ws[i], ops[i])
  }

  /** A run: the world before each operation, and at the end. */
  ghost predicate IsRun(ws: seq<World>, ops: seq<Op>) {
    |ws| == |ops| + 1 && Fresh(ws[0]) && forall i :: 0 <= i < |ops| ==> StepsTo(ws, ops, i)
  }

  // ---- Spellings

  // Of the first `n` operations no delete or prune names the row of `p` in another spelling.
  predicate OneSpelling(ops: seq<Op>, n: nat, p: string)
    requires n <= |ops|
  {
    forall i :: 0 <= i < n && ops[i].Remove? && Row(ops[i].profile) == Row(p) ==> ops[i].profile == p
  }

  // ---- File stats

  // The slot for the path agrees with the storage, unless the path is a directory.
  predicate StatSlotOk(w: World, p: string, rel: string)
    requires Key(p, rel) in w.stats
  {
    && Reaches(w, p, rel) && Where(w, p, rel) in DiskOf(w, p)
    && (DiskOf(w, p)[Where(w, p, rel)].kind != Directory ==>
          w.stats[Key(p, rel)].val == MetaOf(DiskOf(w, p)[Where(w, p, rel)]))
  }

  ghost predicate StatsOk(w: World, p: string) {
    forall rel :: Key(p, rel) in w.stats ==> StatSlotOk(w, p, rel)
  }

  lemma StatsKept(w: World, op: Op, p: string)
    requires StatsOk(w, p) && Enabled(w, op) && RequestId(p)
    requires op.Remove? && Row(op.profile) == Row(p) ==> op.profile == p
    ensures StatsOk(Step(w, op), p)
  {
    var t := Step(w, op);
    forall rel | Key(p, rel) in t.stats ensures StatSlotOk(t, p, rel) {
      match op
      case Stat(q, rel', _) => if Key(p, rel) == Key(q, rel') { KeyInjective(p, rel, q, rel'); }
      case Remove(q, _) => KeyPrefix(q, p, rel);
      case _ =>
      assert Key(p, rel) in w.stats ==> StatSlotOk(w, p, rel);
    }
  }

  lemma {:induction false} StatsOkInRuns(ws: seq<World>, ops: seq<Op>, n: nat, p: string)
    requires IsRun(ws, ops) && n <= |ops| && RequestId(p) && OneSpelling(ops, n, p)
    ensures StatsOk(ws[n], p)
  {
    if n > 0 {
      StatsOkInRuns(ws, ops, n - 1, p);
      assert StepsTo(ws, ops, n - 1);
      StatsKept(ws[n - 1], ops[n - 1], p);
    }
  }

  // What the cache answers for the path is what the storage would answer now, unless the path is a directory.
  predicate AnswersFresh(w: World, p: string, rel: string) {
    && Reaches(w, p, rel) && Where(w, p, rel) in DiskOf(w, p)
    && (DiskOf(w, p)[Where(w, p, rel)].kind != Directory ==>
          Lookup(w.stats, Key(p, rel), w.now) == Some(MetaOf(DiskOf(w, p)[Where(w, p, rel)])))
  }

  /** A stat hit for a path that is not a directory is what the storage would answer now, if no delete or prune
  named the profile in another spelling. */
  lemma StatHitIsFresh(ws: seq<World>, ops: seq<Op>, n: nat, p: string, rel: string)
    requires IsRun(ws, ops) && n <= |ops| && RequestId(p) && OneSpelling(ops, n, p)
    requires Lookup(ws[n].stats, Key(p, rel), ws[n].now).Some?
    ensures AnswersFresh(ws[n], p, rel)
  {
    StatsOkInRuns(ws, ops, n, p);
    assert StatSlotOk(ws[n], p, rel);
  }

  // ---- Listings

  // The entries are a listing of the directory that the path leads to.
  ghost predicate IsListingOf(w: World, p: string, rel: string, es: seq<RecordingEntry>) {
    Reaches(w, p, rel) && exists items :: IsListing(DiskOf(w, p), Where(w, p, rel), items) && es == Entries(rel, items)
  }

  // The listing was taken before operation k, and nothing was removed for this spelling of the id from then up to n.
  ghost predicate TakenAt(ws: seq<World>, ops: seq<Op>, k: nat, n: nat, p: string, rel: string, es: seq<RecordingEntry>)
    requires k <= n <= |ops| && |ws| == |ops| + 1
  {
    IsListingOf(ws[k], p, rel, es) && forall i :: k <= i < n && ops[i].Remove? ==> ops[i].profile != p
  }

  // Where the slot of a key comes from in one step: it was there, or it is the listing just taken.
  ghost predicate SlotKept(w: World, op: Op, p: string, rel: string, slot: Slot<seq<RecordingEntry>>) {
    Key(p, rel) in w.lists && w.lists[Key(p, rel)] == slot && (op.Remove? ==> op.profile != p)
  }

  ghost predicate SlotNew(w: World, op: Op, p: string, rel: string, slot: Slot<seq<RecordingEntry>>) {
    !op.Remove? && IsListingOf(w, p, rel, slot.val) && slot.exp == w.now + LIST_TTL
  }

  lemma SlotOrigin(w: World, op: Op, p: string, rel: string)
    requires Enabled(w, op) && RequestId(p) && Key(p, rel) in Step(w, op).lists
    ensures var slot := Step(w, op).lists[Key(p, rel)]; SlotKept(w, op, p, rel, slot) || SlotNew(w, op, p, rel, slot)
  {
    match op
    case ListDir(q, rel', _) => if Key(q, rel') == Key(p, rel) { KeyInjective(q, rel', p, rel); }
    case Remove(q, _) => KeyPrefix(q, p, rel);
    case _ =>
  }

  lemma {:induction false} SlotsTaken(ws: seq<World>, ops: seq<Op>, n: nat, p: string, rel: string) returns (k: nat)
    requires IsRun(ws, ops) && n <= |ops| && RequestId(p) && Key(p, rel) in ws[n].lists
    ensures k <= n && TakenAt(ws, ops, k, n, p, rel, ws[n].lists[Key(p, rel)].val)
    ensures ws[n].lists[Key(p, rel)].exp == ws[k].now + LIST_TTL && ws[k].now <= ws[n].now
  {
    assert n > 0;
    assert StepsTo(ws, ops, n - 1);
    var slot := ws[n].lists[Key(p, rel)];
    SlotOrigin(ws[n - 1], ops[n - 1], p, rel);
    ClockRises(ws[n - 1], ops[n - 1]);
    if SlotKept(ws[n - 1], ops[n - 1], p, rel, slot) {
      k := SlotsTaken(ws, ops, n - 1, p, rel);
    } else {
      k := n - 1;
    }
  }

  lemma ClockRises(w: World, op: Op)
    requires Enabled(w, op)
    ensures w.now <= Step(w, op).now
  {}

  /** The listing is at most ten seconds old at `n`, and nothing of the profile was removed since, in any
  spelling of its id. */
  ghost predicate IsRecent(ws: seq<World>, ops: seq<Op>, k: nat, n: nat, p: string, rel: string, es: seq<RecordingEntry>)
    requires n <= |ops| && |ws| == |ops| + 1
  {
    && k <= n && 0 <= ws[n].now - ws[k].now <= 10_000 && IsListingOf(ws[k], p, rel, es)
    && forall i :: k <= i < n && ops[i].Remove? ==> Row(ops[i].profile) != Row(p)
  }

  /** A list hit is the listing of that directory as it was at some moment at most ten seconds ago, and after
  the last delete or prune of the profile, if none of them named it in another spelling. */
  lemma ListHitIsRecent(ws: seq<World>, ops: seq<Op>, n: nat, p: string, rel: string) returns (k: nat)
    requires IsRun(ws, ops) && n <= |ops| && RequestId(p) && OneSpelling(ops, n, p)
    requires Lookup(ws[n].lists, Key(p, rel), ws[n].now).Some?
    ensures IsRecent(ws, ops, k, n, p, rel, Lookup(ws[n].lists, Key(p, rel), ws[n].now).value)
  {
    k := SlotsTaken(ws, ops, n, p, rel);
  }

  // ---- What is answered

  /** Whatever `stat` answers for a file, from the cache or not, is its size and time as they are now. */
  lemma StatAnswerIsFresh(ws: seq<World>, ops: seq<Op>, n: nat, p: string, rel: string, found: bool)
    requires IsRun(ws, ops) && n < |ops| && ops[n] == Stat(p, rel, found) && OneSpelling(ops, n, p)
    ensures Enabled(ws[n], ops[n])
    ensures StatReply(ws[n], p, rel, found).Some? ==>
      && Reaches(ws[n], p, rel) && Where(ws[n], p, rel) in DiskOf(ws[n], p)
      && var e := DiskOf(ws[n], p)[Where(ws[n], p, rel)];
         e.kind != Directory ==> StatReply(ws[n], p, rel, found).value == Meta(e.size, e.mtime)
    ensures found ==> StatReply(ws[n], p, rel, found).Some?
  {
    assert StepsTo(ws, ops, n);
    if Lookup(ws[n].stats, Key(p, rel), ws[n].now).Some? {
      StatHitIsFresh(ws, ops, n, p, rel);
    }
  }

  /** Whatever `listDir` answers, from the cache or not, is a recent listing of the directory. */
  lemma ListAnswerIsRecent(ws: seq<World>, ops: seq<Op>, n: nat, p: string, rel: string, answer: Option<seq<Item>>) returns (k: nat)
    requires IsRun(ws, ops) && n < |ops| && ops[n] == ListDir(p, rel, answer) && OneSpelling(ops, n, p)
    requires ListReply(ws[n], p, rel, answer).Some?
    ensures IsRecent(ws, ops, k, n, p, rel, ListReply(ws[n], p, rel, answer).value)
  {
    assert StepsTo(ws, ops, n);
    if Lookup(ws[n].lists, Key(p, rel), ws[n].now).Some? {
      k := ListHitIsRecent(ws, ops, n, p, rel);
    } else {
      k := n;
    }
  }

  // ---- How long an answer is kept

  /** A delete or prune drops the answers kept for the id as it spells it, and no other. */
  lemma RemoveDropsOneSpelling(w: World, p: string, gone: set<Path>, q: string, rel: string)
    requires Enabled(w, Remove(p, gone)) && RequestId(q)
    ensures var t := Step(w, Remove(p, gone));
      && (Key(q, rel) in t.stats <==> q != p && Key(q, rel) in w.stats)
      && (Key(q, rel) in t.lists <==> q != p && Key(q, rel) in w.lists)
      && (Key(q, rel) in t.stats ==> t.stats[Key(q, rel)] == w.stats[Key(q, rel)])
      && (Key(q, rel) in t.lists ==> t.lists[Key(q, rel)] == w.lists[Key(q, rel)])
  {
    KeyPrefix(p, q, rel);
  }

  // The answer kept for the path is this, up to and including this time.
  predicate KeepsStat(w: World, p: string, rel: string, m: Meta, until: int) {
    Key(p, rel) in w.stats && w.stats[Key(p, rel)] == Slot(m, until)
  }

  predicate KeepsList(w: World, p: string, rel: string, es: seq<RecordingEntry>, until: int) {
    Key(p, rel) in w.lists && w.lists[Key(p, rel)] == Slot(es, until)
  }

  lemma KeptOneMore(w: World, op: Op, p: string, rel: string)
    requires Enabled(w, op) && RequestId(p) && (op.Remove? ==> op.profile != p)
    ensures Key(p, rel) in w.stats && w.now <= w.stats[Key(p, rel)].exp ==>
      Key(p, rel) in Step(w, op).stats && Step(w, op).stats[Key(p, rel)] == w.stats[Key(p, rel)]
    ensures Key(p, rel) in w.lists && w.now <= w.lists[Key(p, rel)].exp ==>
      Key(p, rel) in Step(w, op).lists && Step(w, op).lists[Key(p, rel)] == w.lists[Key(p, rel)]
  {
    match op
    case Stat(q, rel', _) => if Key(q, rel') == Key(p, rel) { KeyInjective(q, rel', p, rel); }
    case ListDir(q, rel', _) => if Key(q, rel') == Key(p, rel) { KeyInjective(q, rel', p, rel); }
    case Remove(q, gone) => RemoveDropsOneSpelling(w, q, gone, p, rel);
    case _ =>
  }

  lemma {:induction false} StaysKept(ws: seq<World>, ops: seq<Op>, k: nat, n: nat, p: string, rel: string, m: Meta, until: int)
    requires IsRun(ws, ops) && k <= n <= |ops| && RequestId(p) && KeepsStat(ws[k], p, rel, m, until)
    requires ws[n].now <= until && forall i :: k <= i < n && ops[i].Remove? ==> ops[i].profile != p
    ensures KeepsStat(ws[n], p, rel, m, until)
    decreases n
  {
    if k < n {
      assert StepsTo(ws, ops, n - 1);
      ClockRises(ws[n - 1], ops[n - 1]);
      StaysKept(ws, ops, k, n - 1, p, rel, m, until);
      KeptOneMore(ws[n - 1], ops[n - 1], p, rel);
    }
  }

  lemma {:induction false} StaysListed(ws: seq<World>, ops: seq<Op>, k: nat, n: nat, p: string, rel: string,
                                       es: seq<RecordingEntry>, until: int)
    requires IsRun(ws, ops) && k <= n <= |ops| && RequestId(p) && KeepsList(ws[k], p, rel, es, until)
    requires ws[n].now <= until && forall i :: k <= i < n && ops[i].Remove? ==> ops[i].profile != p
    ensures KeepsList(ws[n], p, rel, es, until)
    decreases n
  {
    if k < n {
      assert StepsTo(ws, ops, n - 1);
      ClockRises(ws[n - 1], ops[n - 1]);
      StaysListed(ws, ops, k, n - 1, p, rel, es, until);
      KeptOneMore(ws[n - 1], ops[n - 1], p, rel);
    }
  }

  /** What the storage answered to a stat is answered again for five minutes without asking the storage, unless a delete
  or prune under this spelling comes in between. */
  lemma StatIsServedForFiveMinutes(ws: seq<World>, ops: seq<Op>, k: nat, n: nat, p: string, rel: string)
    requires IsRun(ws, ops) && k < n <= |ops| && ops[k] == Stat(p, rel, true)
    requires Lookup(ws[k].stats, Key(p, rel), ws[k].now).None?
    requires forall i :: k < i < n && ops[i].Remove? ==> ops[i].profile != p
    ensures Enabled(ws[k], ops[k]) && StatReply(ws[k], p, rel, true).Some?
    ensures ws[n].now <= ws[k].now + 300_000 ==>
      StatReply(ws[n], p, rel, false) == StatReply(ws[k], p, rel, true)
  {
    assert StepsTo(ws, ops, k);
    if ws[n].now <= ws[k].now + 300_000 {
      StaysKept(ws, ops, k + 1, n, p, rel, StatReply(ws[k], p, rel, true).value, ws[k].now + 300_000);
    }
  }

  /** A listing that the storage gave is given again for ten seconds without asking the storage, unless a delete or prune
  under this spelling comes in between. */
  lemma ListIsServedForTenSeconds(ws: seq<World>, ops: seq<Op>, k: nat, n: nat, p: string, rel: string, items: seq<Item>)
    requires IsRun(ws, ops) && k < n <= |ops| && ops[k] == ListDir(p, rel, Some(items))
    requires Lookup(ws[k].lists, Key(p, rel), ws[k].now).None?
    requires forall i :: k < i < n && ops[i].Remove? ==> ops[i].profile != p
    ensures ws[n].now <= ws[k].now + 10_000 ==> ListReply(ws[n], p, rel, None) == Some(Entries(rel, items))
  {
    assert StepsTo(ws, ops, k);
    if ws[n].now <= ws[k].now + 10_000 {
      StaysListed(ws, ops, k + 1, n, p, rel, Entries(rel, items), ws[k].now + 10_000);
    }
  }

  lemma StatSlotOrigin(w: World, op: Op, p: string, rel: string)
    requires Enabled(w, op) && RequestId(p) && Key(p, rel) in Step(w, op).stats
    ensures (Key(p, rel) in w.stats && w.stats[Key(p, rel)] == Step(w, op).stats[Key(p, rel)])
            || (op == Stat(p, rel, true) && Step(w, op).stats[Key(p, rel)].exp == w.now + 300_000)
  {
    match op
    case Stat(q, rel', _) => if Key(q, rel') == Key(p, rel) { KeyInjective(q, rel', p, rel); }
    case _ =>
  }

  /** A stat hit is an answer of the storage that is at most five minutes old. */
  lemma {:induction false} StatHitIsYoung(ws: seq<World>, ops: seq<Op>, n: nat, p: string, rel: string) returns (k: nat)
    requires IsRun(ws, ops) && n <= |ops| && RequestId(p) && Key(p, rel) in ws[n].stats
    ensures k < n && ops[k] == Stat(p, rel, true) && ws[n].stats[Key(p, rel)].exp == ws[k].now + 300_000
    ensures Lookup(ws[n].stats, Key(p, rel), ws[n].now).Some? ==> ws[n].now - ws[k].now <= 300_000
  {
    assert n > 0;
    assert StepsTo(ws, ops, n - 1);
    StatSlotOrigin(ws[n - 1], ops[n - 1], p, rel);
    if ops[n - 1] == Stat(p, rel, true) && ws[n].stats[Key(p, rel)].exp == ws[n - 1].now + 300_000 {
      k := n - 1;
    } else {
      k := StatHitIsYoung(ws, ops, n - 1, p, rel);
    }
  }
}
