/** The cache of downloaded lists: metadata in memory, bodies and a saved copy of the metadata on disk. */
module ListCache {
  import opened Bytes
  import opened FileName

  type Url = Octets
  type FileId = Octets
  type Text = seq<byte>
  type Etag = seq<byte>

  datatype Entry = Entry(fetchedAt: nat, etag: Option<Etag>, filename: FileId)

  type Metadata = map<Url, Entry>

  datatype Cache = Cache(entries: Metadata, dirty: bool)

  /** The files of the cache directory and the saved metadata, if it can be read. */
  datatype Disk = Disk(files: map<FileId, Text>, saved: Option<Metadata>)

  /** What a restart would load. */
  function Loaded(disk: Disk): Metadata {
    if disk.saved.Some? then disk.saved.value else map[]
  }

  datatype Job = Job(url: Url, etag: Option<Etag>)

  datatype Result = Fresh(body: Text, etag: Option<Etag>) | NotModified | StaleFallback(body: Text) | Failed

  /** A finished download; `stored` says whether the disk would take its body. */
  datatype Download = Download(url: Url, result: Result, stored: bool)

  function BodyOf(disk: Disk, file: FileId): Option<Text> {
    if file in disk.files then Some(disk.files[file]) else None
  }

  // ----- one download: the decision table

  /** An HTTP exchange: no response, or one whose body may prove unreadable. */
  datatype Response = NoResponse | Response(status: nat, etag: Option<Etag>, body: Option<Text>)

  function Fallback(cached: Option<Text>): Result {
    if cached.Some? then StaleFallback(cached.value) else Failed
  }

  function Received(r: Response): Result
    requires r.Response?
  {
    if r.body.Some? then Fresh(r.body.value, r.etag) else Failed
  }

  /** `second` is the unconditional repeat made when a 304 finds no body file. */
  function DownloadOne(first: Response, cached: Option<Text>, second: Response): Result {
    if first.NoResponse? then Fallback(cached)
    else if first.status == 304 then
      if cached.Some? then NotModified
      else if second.NoResponse? then Failed
      else Received(second)
    else if first.status == 200 then Received(first)
    else Fallback(cached)
  }

  /** With a body on disk, a download comes to nothing exactly when a 200 response's body cannot be read. */
  lemma CachedCopyIsUsedUnless(first: Response, body: Text, second: Response)
    ensures DownloadOne(first, Some(body), second).Failed? <==>
            first.Response? && first.status == 200 && first.body.None?
  {
  }

  function SourceOf(first: Response, second: Response): Response {
    if first.Response? && first.status == 304 then second else first
  }

  /**
   A body taken for a list comes whole from one response, with that response's ETag. That response is a 200 unless
   it is the repeat after a 304 that found no body file, whose status nobody looks at.
   */
  lemma FreshComesFrom(first: Response, cached: Option<Text>, second: Response)
    requires DownloadOne(first, cached, second).Fresh?
    ensures var source := SourceOf(first, second);
            && source.Response? && source.body.Some?
            && DownloadOne(first, cached, second) == Fresh(source.body.value, source.etag)
            && (source.status == 200 || (first.status == 304 && cached.None?))
  {
  }

  // ----- phase 1: plan

  function FreshBody(cache: Cache, disk: Disk, url: Url, interval: nat, now: nat): Option<Text> {
    if url !in cache.entries then None
    else
      var e := cache.entries[url];
      if (if now > e.fetchedAt then now - e.fetchedAt else 0) < interval then BodyOf(disk, e.filename) else None
  }

  function EtagOf(cache: Cache, url: Url): Option<Etag> {
    if url in cache.entries then cache.entries[url].etag else None
  }

  function PlannedFresh(cache: Cache, disk: Disk, urls: seq<Url>, interval: nat, now: nat): seq<(Url, Text)> {
    if urls == [] then []
    else
      var body := FreshBody(cache, disk, urls[0], interval, now);
      (if body.Some? then [(urls[0], body.value)] else []) + PlannedFresh(cache, disk, urls[1..], interval, now)
  }

  function PlannedJobs(cache: Cache, disk: Disk, urls: seq<Url>, interval: nat, now: nat): seq<Job> {
    if urls == [] then []
    else
      (if FreshBody(cache, disk, urls[0], interval, now).None? then [Job(urls[0], EtagOf(cache, urls[0]))] else [])
      + PlannedJobs(cache, disk, urls[1..], interval, now)
  }

  // ----- phase 3: merge

  /** The state a download leaves, and the body it contributes to the build. */
  function MergeOne(cache: Cache, disk: Disk, d: Download, now: nat): (Cache, Disk, Option<Text>) {
    match d.result
    case Fresh(body, etag) =>
      if !d.stored then (cache, disk, None)
      else
        var file := UrlFile(d.url);
        (Cache(cache.entries[d.url := Entry(now, etag, file)], true),
         disk.(files := disk.files[file := body]), Some(body))
    case NotModified =>
      if d.url in cache.entries then
        var e := cache.entries[d.url];
        (Cache(cache.entries[d.url := e.(fetchedAt := now)], true), disk, BodyOf(disk, e.filename))
      else (cache, disk, BodyOf(disk, UrlFile(d.url)))
    case StaleFallback(body) => (cache, disk, Some(body))
    case Failed => (cache, disk, None)
  }

  function MergeAll(cache: Cache, disk: Disk, downloads: seq<Download>, now: nat): (Cache, Disk, seq<(Url, Text)>)
    decreases |downloads|
  {
    if downloads == [] then (cache, disk, [])
    else
      var (c, k, body) := MergeOne(cache, disk, downloads[0], now);
      var (c', k', bodies) := MergeAll(c, k, downloads[1..], now);
      (c', k', (if body.Some? then [(downloads[0].url, body.value)] else []) + bodies)
  }

  ghost predicate WellNamed(cache: Cache) {
    forall u <- cache.entries :: cache.entries[u].filename == UrlFile(u)
  }

  /** The exchange fetches a body: a 200, or the repeat after a 304 that found no body file. */
  predicate Fetches(first: Response, cached: Option<Text>) {
    first.Response? && (first.status == 200 || (first.status == 304 && cached.None?))
  }

  /**
   What a download and its merge come to, for a disk that nothing else has written meanwhile. When a body is fetched,
   the build, the file and the entry take it with its ETag, whatever the status of a repeat; if it cannot be read or
   stored the build goes without, even if an older copy is on disk. In every other case, 304 or failure, the build
   gets the copy on disk if there is one, and only a 304 renews the entry.
   */
  lemma DownloadThenMerge(cache: Cache, disk: Disk, url: Url, first: Response, second: Response, stored: bool, now: nat)
    requires WellNamed(cache)
    ensures var cached := BodyOf(disk, UrlFile(url));
            var (c, k, body) := MergeOne(cache, disk, Download(url, DownloadOne(first, cached, second), stored), now);
            var source := SourceOf(first, second);
            && body == (if !Fetches(first, cached) then cached
                        else if source.Response? && stored then source.body
                        else None)
            && BodyOf(k, UrlFile(url)) == (if Fetches(first, cached) && body.Some? then body else cached)
            && c.entries == (if Fetches(first, cached) && body.Some? then
                               cache.entries[url := Entry(now, source.etag, UrlFile(url))]
                             else if cached.Some? && first.Response? && first.status == 304 && url in cache.entries then
                               cache.entries[url := cache.entries[url].(fetchedAt := now)]
                             else cache.entries)
  {
    hide UrlFile;
  }

  // ----- phase 4: prune and save

  function Doomed(entries: Metadata, keep: set<Url>): set<Url> {
    set u | u in entries && u !in keep
  }

  function Filenames(entries: Metadata, urls: set<Url>): set<FileId>
    requires urls <= entries.Keys
  {
    set u | u in urls :: entries[u].filename
  }

  /** `stuck` are the files that cannot be removed; their entries go all the same. */
  function Pruned(cache: Cache, disk: Disk, keep: set<Url>, stuck: set<FileId>): (Cache, Disk) {
    var gone := Doomed(cache.entries, keep);
    (Cache(cache.entries - gone, cache.dirty || gone != {}),
     disk.(files := disk.files - (Filenames(cache.entries, gone) - stuck)))
  }

  function Saved(cache: Cache, disk: Disk, written: bool): (Cache, Disk) {
    (cache.(dirty := false), if cache.dirty && written then disk.(saved := Some(cache.entries)) else disk)
  }

  /** A save leaves disk and memory in step exactly when it wrote, or had nothing to write, or nothing had changed. */
  lemma SaveSynchronizes(cache: Cache, disk: Disk, written: bool)
    ensures var (c, d) := Saved(cache, disk, written);
            && !c.dirty && c.entries == cache.entries
            && (Loaded(d) == c.entries <==> (cache.dirty && written) || Loaded(disk) == cache.entries)
  {
  }

  // ----- a build's bodies

  function AsMap(pairs: seq<(Url, Text)>): map<Url, Text> {
    if pairs == [] then map[] else map[pairs[0].0 := pairs[0].1] + AsMap(pairs[1..])
  }

  function BuildBodies(current: seq<(Url, Text)>, merged: seq<(Url, Text)>): map<Url, Text> {
    AsMap(current) + AsMap(merged)
  }

  // ----- the cache as the program keeps it

  class DiskStore {
    var files: map<FileId, Text>
    var saved: Option<Metadata>

    constructor (d: Disk)
      ensures Value() == d
    {
      files, saved := d.files, d.saved;
    }

    function Value(): Disk
      reads this
    {
      Disk(files, saved)
    }
  }

  class CachedLists {
    var entries: Metadata
    var dirty: bool
    const disk: DiskStore

    constructor (disk: DiskStore)
      ensures this.disk == disk && Value() == Cache(Loaded(disk.Value()), false)
    {
      this.disk := disk;
      entries, dirty := if disk.saved.Some? then disk.saved.value else map[], false;
    }

    function Value(): Cache
      reads this
    {
      Cache(entries, dirty)
    }

    method GetIfFresh(url: Url, interval: nat, now: nat) returns (body: Option<Text>)
      ensures body == FreshBody(Value(), disk.Value(), url, interval, now)
    {
      if url !in entries {
        return None;
      }
      var age := if now > entries[url].fetchedAt then now - entries[url].fetchedAt else 0;
      if age < interval {
        return if entries[url].filename in disk.files then Some(disk.files[entries[url].filename]) else None;
      }
      return None;
    }

    method PlanFetches(urls: seq<Url>, interval: nat, now: nat) returns (current: seq<(Url, Text)>, jobs: seq<Job>)
      ensures current == PlannedFresh(Value(), disk.Value(), urls, interval, now)
      ensures jobs == PlannedJobs(Value(), disk.Value(), urls, interval, now)
    {
      hide FreshBody, EtagOf;
      current, jobs := [], [];
      for i := 0 to |urls|
        invariant current + PlannedFresh(Value(), disk.Value(), urls[i..], interval, now)
               == PlannedFresh(Value(), disk.Value(), urls, interval, now)
        invariant jobs + PlannedJobs(Value(), disk.Value(), urls[i..], interval, now)
               == PlannedJobs(Value(), disk.Value(), urls, interval, now)
      {
        assert urls[i..][1..] == urls[i + 1..];
        var body := GetIfFresh(urls[i], interval, now);
        ghost var laterFresh := PlannedFresh(Value(), disk.Value(), urls[i + 1..], interval, now);
        ghost var laterJobs := PlannedJobs(Value(), disk.Value(), urls[i + 1..], interval, now);
        if body.Some? {
          assert current + ([(urls[i], body.value)] + laterFresh) == current + [(urls[i], body.value)] + laterFresh;
          current := current + [(urls[i], body.value)];
        } else {
          var etag := EtagOf(Value(), urls[i]);
          assert jobs + ([Job(urls[i], etag)] + laterJobs) == jobs + [Job(urls[i], etag)] + laterJobs;
          jobs := jobs + [Job(urls[i], etag)];
        }
      }
    }

    method MergeDownloads(downloads: seq<Download>, now: nat) returns (bodies: seq<(Url, Text)>)
      modifies this, disk
      ensures (Value(), disk.Value(), bodies) == MergeAll(old(Value()), old(disk.Value()), downloads, now)
    {
      hide UrlFile, MergeOne;
      bodies := [];
      assert downloads[0..] == downloads;
      NothingBefore(MergeAll(Value(), disk.Value(), downloads, now).2);
      for i := 0 to |downloads|
        invariant var (c, k, later) := MergeAll(Value(), disk.Value(), downloads[i..], now);
          (c, k, bodies + later) == MergeAll(old(Value()), old(disk.Value()), downloads, now)
      {
        assert downloads[i..][1..] == downloads[i + 1..];
        ghost var before, c, k := bodies, Value(), disk.Value();
        var body := MergeDownload(downloads[i], now);
        if body.Some? {
          ghost var later := MergeAll(Value(), disk.Value(), downloads[i + 1..], now).2;
          assert before + ([(downloads[i].url, body.value)] + later) ==
              before + [(downloads[i].url, body.value)] + later;
          bodies := bodies + [(downloads[i].url, body.value)];
        } else {
          NothingBefore(MergeAll(Value(), disk.Value(), downloads[i + 1..], now).2);
        }
      }
      assert bodies + [] == bodies;
    }

    method MergeDownload(d: Download, now: nat) returns (body: Option<Text>)
      modifies this, disk
      ensures (Value(), disk.Value(), body) == MergeOne(old(Value()), old(disk.Value()), d, now)
    {
      hide UrlFile;
      match d.result
      case Fresh(text, etag) =>
        var filename := UrlToFilename(d.url);
        if !d.stored {
          return None;
        }
        disk.files := disk.files[filename := text];
        entries := entries[d.url := Entry(now, etag, filename)];
        dirty := true;
        return Some(text);
      case NotModified =>
        if d.url in entries {
          entries := entries[d.url := entries[d.url].(fetchedAt := now)];
          dirty := true;
          var filename := entries[d.url].filename;
          return if filename in disk.files then Some(disk.files[filename]) else None;
        } else {
          var filename := UrlToFilename(d.url);
          return if filename in disk.files then Some(disk.files[filename]) else None;
        }
      case StaleFallback(text) => return Some(text);
      case Failed => return None;
    }

    method Prune(keep: set<Url>, stuck: set<FileId>)
      modifies this, disk
      ensures (Value(), disk.Value()) == Pruned(old(Value()), old(disk.Value()), keep, stuck)
    {
      hide Filenames;
      ghost var was, files := entries, disk.files;
      ghost var gone := {};
      var before := |entries|;
      var left := entries.Keys;
      NoneGone(was, files, stuck);
      while left != {}
        invariant left <= was.Keys && gone == Doomed(was, keep) - left
        invariant entries == was - gone && dirty == old(dirty)
        invariant disk.files == files - (Filenames(was, gone) - stuck) && disk.saved == old(disk.saved)
        decreases left
      {
        var url :| url in left;
        left := left - {url};
        if url !in keep {
          OneMoreGone(was, files, gone, stuck, url);
          gone := gone + {url};
          if entries[url].filename !in stuck {
            disk.files := disk.files - {entries[url].filename};
          }
          entries := entries - {url};
        }
      }
      assert gone == Doomed(was, keep);
      CountRemoved(was, gone);
      if |entries| < before {
        dirty := true;
      }
    }

    method SaveToDisk(written: bool)
      modifies this, disk
      ensures (Value(), disk.Value()) == Saved(old(Value()), old(disk.Value()), written)
    {
      if !dirty {
        return;
      }
      dirty := false;
      if written {
        disk.saved := Some(entries);
      }
    }
  }

  lemma NoneGone(was: Metadata, files: map<FileId, Text>, stuck: set<FileId>)
    ensures files - (Filenames(was, {}) - stuck) == files && was - {} == was
  {
  }

  lemma OneMoreGone(was: Metadata, files: map<FileId, Text>, gone: set<Url>, stuck: set<FileId>, url: Url)
    requires gone <= was.Keys && url in was
    ensures was - gone - {url} == was - (gone + {url})
    ensures var left := files - (Filenames(was, gone) - stuck);
            files - (Filenames(was, gone + {url}) - stuck) ==
            if was[url].filename in stuck then left else left - {was[url].filename}
  {
    var names, file := Filenames(was, gone), was[url].filename;
    assert Filenames(was, gone + {url}) == names + {file};
    assert names + {file} - stuck == if file in stuck then names - stuck else names - stuck + {file};
  }

  lemma NothingBefore(bodies: seq<(Url, Text)>)
    ensures [] + bodies == bodies
  {
  }

  lemma CountRemoved(entries: Metadata, gone: set<Url>)
    requires gone <= entries.Keys
    ensures |entries - gone| < |entries| <==> gone != {}
  {
    assert (entries - gone).Keys == entries.Keys - gone;
  }

  // ----- no list is lost on the way

  function PairUrls(pairs: seq<(Url, Text)>): seq<Url> {
    if pairs == [] then [] else [pairs[0].0] + PairUrls(pairs[1..])
  }

  function JobUrls(jobs: seq<Job>): seq<Url> {
    if jobs == [] then [] else [jobs[0].url] + JobUrls(jobs[1..])
  }

  /** `whole` is dealt out, in order, to `a` and `b`. */
  predicate Dealt(whole: seq<Url>, a: seq<Url>, b: seq<Url>) {
    if whole == [] then a == [] && b == []
    else
      || (a != [] && a[0] == whole[0] && Dealt(whole[1..], a[1..], b))
      || (b != [] && b[0] == whole[0] && Dealt(whole[1..], a, b[1..]))
  }

  /** Planning deals every URL, with its order and repetitions, either to the bodies at hand or to the downloads. */
  lemma {:induction false} PlanDealsUrls(cache: Cache, disk: Disk, urls: seq<Url>, interval: nat, now: nat)
    ensures Dealt(urls, PairUrls(PlannedFresh(cache, disk, urls, interval, now)),
                  JobUrls(PlannedJobs(cache, disk, urls, interval, now)))
    ensures forall p <- PlannedFresh(cache, disk, urls, interval, now) ::
              FreshBody(cache, disk, p.0, interval, now) == Some(p.1)
    ensures forall j <- PlannedJobs(cache, disk, urls, interval, now) ::
              FreshBody(cache, disk, j.url, interval, now).None? && j.etag == EtagOf(cache, j.url)
  {
    hide FreshBody, EtagOf;
    if urls == [] {
    } else {
      var current := PlannedFresh(cache, disk, urls[1..], interval, now);
      var jobs := PlannedJobs(cache, disk, urls[1..], interval, now);
      PlanDealsUrls(cache, disk, urls[1..], interval, now);
      var body := FreshBody(cache, disk, urls[0], interval, now);
      if body.Some? {
        var pairs := [(urls[0], body.value)] + current;
        assert PlannedJobs(cache, disk, urls, interval, now) == jobs;
        assert pairs[1..] == current && PairUrls(pairs) == [urls[0]] + PairUrls(current);
        assert PairUrls(pairs)[1..] == PairUrls(current);
      } else {
        var more := [Job(urls[0], EtagOf(cache, urls[0]))] + jobs;
        assert PlannedFresh(cache, disk, urls, interval, now) == current;
        assert more[1..] == jobs && JobUrls(more) == [urls[0]] + JobUrls(jobs);
        assert JobUrls(more)[1..] == JobUrls(jobs);
      }
    }
  }

  /** The download brings a body of its own, or finds the one on disk. */
  predicate Usable(disk: Disk, d: Download) {
    match d.result
    case Fresh(_, _) => d.stored
    case NotModified => UrlFile(d.url) in disk.files
    case StaleFallback(_) => true
    case Failed => false
  }

  lemma MergeOneNames(cache: Cache, disk: Disk, d: Download, now: nat)
    requires WellNamed(cache)
    ensures WellNamed(MergeOne(cache, disk, d, now).0)
    ensures disk.files.Keys <= MergeOne(cache, disk, d, now).1.files.Keys
    ensures Usable(disk, d) ==> MergeOne(cache, disk, d, now).2.Some?
  {
    hide UrlFile;
  }

  /** A usable download contributes a body to the build, whatever else is merged before and after it. */
  lemma {:induction false} UsableIsMerged(cache: Cache, disk: Disk, downloads: seq<Download>, now: nat, i: nat)
    requires WellNamed(cache) && i < |downloads| && Usable(disk, downloads[i])
    ensures exists p <- MergeAll(cache, disk, downloads, now).2 :: p.0 == downloads[i].url
    decreases |downloads|
  {
    hide MergeOne, Usable, UrlFile, WellNamed;
    var (c, k, body) := MergeOne(cache, disk, downloads[0], now);
    var rest := MergeAll(c, k, downloads[1..], now).2;
    MergeOneNames(cache, disk, downloads[0], now);
    var all := MergeAll(cache, disk, downloads, now).2;
    if i == 0 {
      assert all[0] == (downloads[0].url, body.value);
    } else {
      UsableStays(disk, k, downloads[i]);
      UsableIsMerged(c, k, downloads[1..], now, i - 1);
      var p :| p in rest && p.0 == downloads[i].url;
      assert p in all;
    }
  }

  lemma UsableStays(disk: Disk, later: Disk, d: Download)
    requires Usable(disk, d) && disk.files.Keys <= later.files.Keys
    ensures Usable(later, d)
  {
    hide UrlFile;
  }

  lemma {:induction false} AsMapKeys(pairs: seq<(Url, Text)>)
    ensures forall u :: u in AsMap(pairs) <==> exists p <- pairs :: p.0 == u
    ensures forall u <- AsMap(pairs) :: (u, AsMap(pairs)[u]) in pairs
  {
    if pairs == [] {
    } else {
      AsMapKeys(pairs[1..]);
      assert pairs == [pairs[0]] + pairs[1..];
      forall u | u in AsMap(pairs)
        ensures (u, AsMap(pairs)[u]) in pairs
      {
        if u in AsMap(pairs[1..]) {
          assert (u, AsMap(pairs[1..])[u]) in pairs[1..];
        } else {
          assert pairs[0] == (u, AsMap(pairs)[u]);
        }
      }
    }
  }

  /** No two of the downloads write one file, unless they are of one URL. */
  ghost predicate Apart(downloads: seq<Download>) {
    forall d <- downloads, e <- downloads :: UrlFile(d.url) == UrlFile(e.url) ==> d.url == e.url
  }

  /** A URL without a usable download contributes nothing. */
  lemma {:induction false} UnusableIsNotMerged(cache: Cache, disk: Disk, downloads: seq<Download>, now: nat, url: Url)
    requires WellNamed(cache) && Apart(downloads)
    requires forall d <- downloads :: d.url == url ==> !Usable(disk, d)
    ensures forall p <- MergeAll(cache, disk, downloads, now).2 :: p.0 != url
    decreases |downloads|
  {
    hide UrlFile, MergeOne, WellNamed, Usable;
    if downloads == [] {
    } else {
      var (c, k, body) := MergeOne(cache, disk, downloads[0], now);
      MergeOneNames(cache, disk, downloads[0], now);
      MergeOneWrites(cache, disk, downloads[0], now, downloads[0]);
      assert downloads[0] in downloads;
      forall d | d in downloads[1..] && d.url == url
        ensures !Usable(k, d)
      {
        assert d in downloads;
        MergeOneWrites(cache, disk, downloads[0], now, d);
      }
      UnusableIsNotMerged(c, k, downloads[1..], now, url);
    }
  }

  /** A merge makes another download usable only by storing a file, and contributes only if it is usable itself. */
  lemma MergeOneWrites(cache: Cache, disk: Disk, d: Download, now: nat, e: Download)
    requires WellNamed(cache)
    ensures var (_, k, body) := MergeOne(cache, disk, d, now);
            && (Usable(k, e) && !Usable(disk, e) ==> Usable(disk, d) && UrlFile(d.url) == UrlFile(e.url))
            && (body.Some? <==> Usable(disk, d))
  {
    hide UrlFile;
  }

  /** Downloads are merged one after another, each into what those before it left, and add their bodies in order. */
  lemma {:induction false} MergeInSequence(cache: Cache, disk: Disk, a: seq<Download>, b: seq<Download>, now: nat)
    ensures var (c, k, x) := MergeAll(cache, disk, a, now);
            var (c', k', y) := MergeAll(c, k, b, now);
            MergeAll(cache, disk, a + b, now) == (c', k', x + y)
    ensures |a| == 1 ==>
              var (c, k, body) := MergeOne(cache, disk, a[0], now);
              MergeAll(cache, disk, a, now) == (c, k, if body.Some? then [(a[0].url, body.value)] else [])
    decreases |a|
  {
    hide MergeOne;
    if a == [] {
      var y := MergeAll(cache, disk, b, now).2;
      assert a + b == b && [] + y == y;
    } else {
      var (c, k, body) := MergeOne(cache, disk, a[0], now);
      assert (a + b)[1..] == a[1..] + b;
      MergeInSequence(c, k, a[1..], b, now);
      var head := if body.Some? then [(a[0].url, body.value)] else [];
      var (c', k', x) := MergeAll(c, k, a[1..], now);
      PairsAssociate(head, x, MergeAll(c', k', b, now).2);
      assert |a| == 1 ==> a[1..] == [];
    }
  }

  lemma PairsAssociate(x: seq<(Url, Text)>, y: seq<(Url, Text)>, z: seq<(Url, Text)>)
    ensures x + (y + z) == x + y + z && x + [] == x
  {
  }

  /** Of several bodies for one URL the build takes the last, and the merged ones come after those at hand. */
  lemma LastBodyWins(current: seq<(Url, Text)>, merged: seq<(Url, Text)>, k: nat)
    requires k < |current + merged|
    requires forall i :: k < i < |current + merged| ==> (current + merged)[i].0 != (current + merged)[k].0
    ensures var (u, body) := (current + merged)[k];
            u in BuildBodies(current, merged) && BuildBodies(current, merged)[u] == body
  {
    AsMapConcat(current, merged);
    LastPairWins(current + merged, k);
  }

  lemma {:induction false} AsMapConcat(a: seq<(Url, Text)>, b: seq<(Url, Text)>)
    ensures AsMap(a + b) == AsMap(a) + AsMap(b)
  {
    if a == [] {
      assert a + b == b;
    } else {
      assert (a + b)[1..] == a[1..] + b;
      AsMapConcat(a[1..], b);
      MapsAssociate(map[a[0].0 := a[0].1], AsMap(a[1..]), AsMap(b));
    }
  }

  lemma MapsAssociate(x: map<Url, Text>, y: map<Url, Text>, z: map<Url, Text>)
    ensures x + (y + z) == x + y + z
  {
  }

  lemma {:induction false} LastPairWins(pairs: seq<(Url, Text)>, k: nat)
    requires k < |pairs| && forall i :: k < i < |pairs| ==> pairs[i].0 != pairs[k].0
    ensures pairs[k].0 in AsMap(pairs) && AsMap(pairs)[pairs[k].0] == pairs[k].1
  {
    if k == 0 {
      AsMapKeys(pairs[1..]);
    } else {
      LastPairWins(pairs[1..], k - 1);
    }
  }

  /**
   No list is silently dropped: a URL that was fresh when planned, or that had a usable download (stored, confirmed
   with its file still there, or stale), has a body in the build. No other URL has one.
   */
  lemma UsableListIsBuilt(current: seq<(Url, Text)>, cache: Cache, disk: Disk, downloads: seq<Download>, now: nat,
                          url: Url)
    requires WellNamed(cache)
    ensures (exists p <- current :: p.0 == url) || (exists d <- downloads :: d.url == url && Usable(disk, d)) ==>
              url in BuildBodies(current, MergeAll(cache, disk, downloads, now).2)
    ensures Apart(downloads) && url in BuildBodies(current, MergeAll(cache, disk, downloads, now).2) ==>
              (exists p <- current :: p.0 == url) || exists d <- downloads :: d.url == url && Usable(disk, d)
  {
    hide MergeAll, Usable, WellNamed, Apart;
    var merged := MergeAll(cache, disk, downloads, now).2;
    AsMapKeys(current);
    AsMapKeys(merged);
    if exists d <- downloads :: d.url == url && Usable(disk, d) {
      var i :| 0 <= i < |downloads| && downloads[i].url == url && Usable(disk, downloads[i]);
      UsableIsMerged(cache, disk, downloads, now, i);
    } else if Apart(downloads) {
      UnusableIsNotMerged(cache, disk, downloads, now, url);
    }
  }
}
