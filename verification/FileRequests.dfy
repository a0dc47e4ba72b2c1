/** A request for a file, from the cached stat to the last byte. */
module FileRequests {
  import opened Options
  import opened WindowedRead
  import opened WindowedReadRuns
  import opened ByteRanges
  import opened ProfileIds
  import opened Storage
  import opened TtlCaches
  import Cache = CacheCoherence
  import Delivery

  // What is stored in the files has the size that the storage tells.
  predicate Stores(disk: Disk, bytes: Path -> seq<Byte>) {
    forall p :: p in disk && disk[p].kind != Directory ==> |bytes(p)| == disk[p].size
  }

  // The stat that the handler gets, from the cache or from the storage, is that of the file as it is now.
  lemma StatIsOfTheFile(ws: seq<Cache.World>, ops: seq<Cache.Op>, n: nat, p: string, rel: string, found: bool)
    requires Cache.IsRun(ws, ops) && n <= |ops| && Cache.RequestId(p) && Cache.OneSpelling(ops, n, p)
    requires Cache.Enabled(ws[n], Cache.Stat(p, rel, found)) && Cache.StatReply(ws[n], p, rel, found).Some?
    ensures Cache.Reaches(ws[n], p, rel) && Cache.Where(ws[n], p, rel) in Cache.DiskOf(ws[n], p)
    ensures var e := Cache.DiskOf(ws[n], p)[Cache.Where(ws[n], p, rel)];
      e.kind != Directory ==> Cache.StatReply(ws[n], p, rel, found).value.size == e.size
  {
    if Lookup(ws[n].stats, Cache.Key(p, rel), ws[n].now).Some? {
      Cache.StatHitIsFresh(ws, ops, n, p, rel);
    }
  }

  /** After any run of requests in which no delete or prune named the profile in another spelling, a file request whose
  stream ends delivers what its headers announce, of the file that is stored: all of it with 200, and with 206 the
  slice that Content-Range names, out of the length that the file has. */
  lemma FileIsDelivered(ws: seq<Cache.World>, ops: seq<Cache.Op>, n: nat, p: string, rel: string, found: bool,
                        bytes: Path -> seq<Byte>, range: Option<string>, c: Config, es: seq<Event>)
    requires Cache.IsRun(ws, ops) && n <= |ops| && Cache.RequestId(p) && Cache.OneSpelling(ops, n, p)
    requires Cache.Enabled(ws[n], Cache.Stat(p, rel, found)) && Cache.StatReply(ws[n], p, rel, found).Some?
    requires Cache.Reaches(ws[n], p, rel) && Stores(Cache.DiskOf(ws[n], p), bytes)
    requires Cache.Where(ws[n], p, rel) in Cache.DiskOf(ws[n], p)
    requires Cache.DiskOf(ws[n], p)[Cache.Where(ws[n], p, rel)].kind != Directory
    requires c.file == bytes(Cache.Where(ws[n], p, rel))
    requires Delivery.Serves(c, Delivery.FileAnswer(rel, range, false, Cache.StatReply(ws[n], p, rel, found).value.size))
    requires Feasible(c, es) && Run(c, es).ends == 1
    ensures var stored := bytes(Cache.Where(ws[n], p, rel)); var body := Run(c, es).written;
      var a := Delivery.FileAnswer(rel, range, false, |stored|);
      && Delivery.CONTENT_LENGTH in a.headers && a.headers[Delivery.CONTENT_LENGTH] == Print(|body|)
      && (a.status == 200 || a.status == 206)
      && (a.status == 200 ==> body == stored)
      && (a.status == 206 ==>
            && c.start <= c.end < |stored| && body == stored[c.start..c.end + 1]
            && Delivery.CONTENT_RANGE in a.headers
            && a.headers[Delivery.CONTENT_RANGE] == Delivery.ContentRange(c.start, c.end, |stored|))
  {
    StatIsOfTheFile(ws, ops, n, p, rel, found);
    WholeAnswer(rel, range, c, es);
  }

  lemma WholeAnswer(path: string, range: Option<string>, c: Config, es: seq<Event>)
    requires Delivery.Serves(c, Delivery.FileAnswer(path, range, false, |c.file|))
    requires Feasible(c, es) && Run(c, es).ends == 1
    ensures var a := Delivery.FileAnswer(path, range, false, |c.file|); var body := Run(c, es).written;
      && Delivery.CONTENT_LENGTH in a.headers && a.headers[Delivery.CONTENT_LENGTH] == Print(|body|)
      && (a.status == 200 || a.status == 206)
      && (a.status == 200 ==> body == c.file)
      && (a.status == 206 ==>
            && c.start <= c.end < |c.file| && body == c.file[c.start..c.end + 1]
            && Delivery.CONTENT_RANGE in a.headers
            && a.headers[Delivery.CONTENT_RANGE] == Delivery.ContentRange(c.start, c.end, |c.file|))
  {
    Delivery.ClientReceivesWhatHeadersSay(path, range, |c.file|, c, es);
    assert c.file[..|c.file|] == c.file;
  }
}
