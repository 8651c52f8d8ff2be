/**
 Builds that share the cache: the refresh timer and configuration reloads plan, download, merge, and prune and save,
 each phase under the cache lock but the downloads, so their phases interleave in any way.
 */
module CacheProtocol {
  import opened Bytes
  import opened FileName
  import opened ListCache

  type TaskId = nat

  /** A body as some response delivered it, whole, for a URL and under an ETag. */
  datatype Origin = Origin(url: Url, etag: Option<Etag>, body: Text)

  /** `lost` records the jobs whose download died without a result. */
  datatype Phase =
    | Idle
    | Downloading(urls: seq<Url>, current: seq<(Url, Text)>, pending: seq<Job>, finished: seq<Download>, lost: seq<Job>)
    | Merged(urls: seq<Url>, bodies: map<Url, Text>)
    | Built(urls: seq<Url>, bodies: map<Url, Text>)

  /** `served` records every body ever delivered; `published` is the build the query handlers see. */
  datatype State = State(cache: Cache, disk: Disk, served: set<Origin>, clock: nat,
                         tasks: map<TaskId, Phase>, published: Option<map<Url, Text>>)

  datatype Event =
    | Plan(t: TaskId, urls: seq<Url>, interval: nat)
    | Finish(t: TaskId, i: nat, first: Response, second: Response, stored: bool)
    | Lose(t: TaskId, i: nat)
    | Merge(t: TaskId)
    | PruneSave(t: TaskId, stuck: set<FileId>, written: bool)
    | Publish(t: TaskId)
    | Tick(elapsed: nat)
    | Exit(written: bool)

  function PhaseOf(st: State, t: TaskId): Phase {
    if t in st.tasks then st.tasks[t] else Idle
  }

  /** All the URLs ever configured. */
  predicate Enabled(st: State, known: set<Url>, e: Event) {
    match e
    case Plan(t, urls, _) => PhaseOf(st, t).Idle? && forall u <- urls :: u in known
    case Finish(t, i, _, _, _) => PhaseOf(st, t).Downloading? && i < |PhaseOf(st, t).pending|
    case Lose(t, i) => PhaseOf(st, t).Downloading? && i < |PhaseOf(st, t).pending|
    case Merge(t) => PhaseOf(st, t).Downloading? && PhaseOf(st, t).pending == []
    case PruneSave(t, _, _) => PhaseOf(st, t).Merged?
    case Publish(t) => PhaseOf(st, t).Built?
    case Tick(_) => true
    case Exit(_) => true
  }

  function Without(jobs: seq<Job>, i: nat): seq<Job>
    requires i < |jobs|
  {
    jobs[..i] + jobs[i + 1..]
  }

  function Keep(urls: seq<Url>): set<Url> {
    set u | u in urls
  }

  function Do(st: State, known: set<Url>, e: Event): State
    requires Enabled(st, known, e)
  {
    match e
    case Plan(t, urls, interval) =>
      st.(tasks := st.tasks[t := Downloading(urls, PlannedFresh(st.cache, st.disk, urls, interval, st.clock),
                                             PlannedJobs(st.cache, st.disk, urls, interval, st.clock), [], [])])
    case Finish(t, i, first, second, stored) =>
      var p := st.tasks[t];
      var url := p.pending[i].url;
      var result := DownloadOne(first, BodyOf(st.disk, UrlFile(url)), second);
      var finished := p.finished + [Download(url, result, stored)];
      st.(tasks := st.tasks[t := p.(pending := Without(p.pending, i), finished := finished)],
          served := if result.Fresh? then st.served + {Origin(url, result.etag, result.body)} else st.served)
    case Lose(t, i) =>
      var p := st.tasks[t];
      st.(tasks := st.tasks[t := p.(pending := Without(p.pending, i), lost := p.lost + [p.pending[i]])])
    case Merge(t) =>
      var p := st.tasks[t];
      var (c, d, bodies) := MergeAll(st.cache, st.disk, p.finished, st.clock);
      st.(cache := c, disk := d, tasks := st.tasks[t := Merged(p.urls, BuildBodies(p.current, bodies))])
    case PruneSave(t, stuck, written) =>
      var p := st.tasks[t];
      var (c, d) := Pruned(st.cache, st.disk, Keep(p.urls), stuck);
      var (c', d') := Saved(c, d, written);
      st.(cache := c', disk := d', tasks := st.tasks[t := Built(p.urls, p.bodies)])
    case Publish(t) =>
      st.(published := Some(st.tasks[t].bodies), tasks := st.tasks[t := Idle])
    case Tick(n) => st.(clock := st.clock + n)
    case Exit(written) =>
      var (c, d) := Saved(st.cache, st.disk, written);
      st.(cache := c, disk := d)
  }

  ghost predicate Run(st: State, known: set<Url>, events: seq<Event>)
    decreases |events|
  {
    events == [] || (Enabled(st, known, events[0]) && Run(Do(st, known, events[0]), known, events[1..]))
  }

  function After(st: State, known: set<Url>, events: seq<Event>): State
    requires Run(st, known, events)
    decreases |events|
  {
    if events == [] then st else After(Do(st, known, events[0]), known, events[1..])
  }

  /** No two configured URLs share a body file. */
  ghost predicate DistinctFiles(known: set<Url>) {
    forall u, v :: u in known && v in known && UrlFile(u) == UrlFile(v) ==> u == v
  }

  // ----- what every reachable state keeps

  /** The body was once delivered whole for this very URL. */
  predicate ServedBody(served: set<Origin>, url: Url, body: Text) {
    exists o <- served :: o.url == url && o.body == body
  }

  ghost predicate Named(cache: Cache, known: set<Url>) {
    forall u <- cache.entries :: u in known && cache.entries[u].filename == UrlFile(u)
  }

  /** A metadata entry whose body file exists holds the ETag of a response that delivered exactly that body. */
  ghost predicate EtagsMatch(cache: Cache, disk: Disk, served: set<Origin>) {
    forall u <- cache.entries :: UrlFile(u) in disk.files ==>
      Origin(u, cache.entries[u].etag, disk.files[UrlFile(u)]) in served
  }

  /** Every body file holds a body of the URL it is named after. */
  ghost predicate FilesServed(disk: Disk, served: set<Origin>, known: set<Url>) {
    forall f <- disk.files :: exists o <- served :: o.url in known && UrlFile(o.url) == f && o.body == disk.files[f]
  }

  ghost predicate CacheSound(cache: Cache, disk: Disk, served: set<Origin>, known: set<Url>) {
    Named(cache, known) && EtagsMatch(cache, disk, served) && FilesServed(disk, served, known)
  }

  ghost predicate PairsServed(pairs: seq<(Url, Text)>, served: set<Origin>) {
    forall p <- pairs :: ServedBody(served, p.0, p.1)
  }

  ghost predicate BodiesServed(bodies: map<Url, Text>, served: set<Origin>) {
    forall u <- bodies :: ServedBody(served, u, bodies[u])
  }

  ghost predicate DownloadServed(d: Download, served: set<Origin>, known: set<Url>) {
    && d.url in known
    && match d.result
       case Fresh(body, etag) => Origin(d.url, etag, body) in served
       case StaleFallback(body) => ServedBody(served, d.url, body)
       case _ => true
  }

  ghost predicate PhaseSound(p: Phase, served: set<Origin>, known: set<Url>) {
    match p
    case Idle => true
    case Downloading(urls, current, pending, finished, _) =>
      && (forall u <- urls :: u in known)
      && PairsServed(current, served)
      && (forall j <- pending :: j.url in known)
      && (forall d <- finished :: DownloadServed(d, served, known))
    case Merged(urls, bodies) => (forall u <- urls :: u in known) && BodiesServed(bodies, served)
    case Built(urls, bodies) => (forall u <- urls :: u in known) && BodiesServed(bodies, served)
  }

  ghost predicate Sound(st: State, known: set<Url>) {
    && CacheSound(st.cache, st.disk, st.served, known)
    && (forall t <- st.tasks :: PhaseSound(st.tasks[t], st.served, known))
    && (st.published.Some? ==> BodiesServed(st.published.value, st.served))
  }

  // ----- what was served stays served

  lemma ServedGrows(served: set<Origin>, more: set<Origin>, url: Url, body: Text)
    requires served <= more && ServedBody(served, url, body)
    ensures ServedBody(more, url, body)
  {
    var o :| o in served && o.url == url && o.body == body;
    assert o in more;
  }

  lemma PhaseGrows(p: Phase, served: set<Origin>, more: set<Origin>, known: set<Url>)
    requires served <= more && PhaseSound(p, served, known)
    ensures PhaseSound(p, more, known)
  {
    hide ServedBody;
    forall url, body | ServedBody(served, url, body)
      ensures ServedBody(more, url, body)
    {
      ServedGrows(served, more, url, body);
    }
  }

  lemma CacheGrows(cache: Cache, disk: Disk, served: set<Origin>, more: set<Origin>, known: set<Url>)
    requires served <= more && CacheSound(cache, disk, served, known)
    ensures CacheSound(cache, disk, more, known)
  {
    hide UrlFile;
    forall f | f in disk.files
      ensures exists o <- more :: o.url in known && UrlFile(o.url) == f && o.body == disk.files[f]
    {
      var o :| o in served && o.url in known && UrlFile(o.url) == f && o.body == disk.files[f];
      assert o in more;
    }
  }

  /** A file read for a configured URL holds a body of that URL. */
  lemma FileIsOwn(disk: Disk, served: set<Origin>, known: set<Url>, url: Url)
    requires DistinctFiles(known) && FilesServed(disk, served, known) && url in known && UrlFile(url) in disk.files
    ensures ServedBody(served, url, disk.files[UrlFile(url)])
  {
    hide UrlFile;
    var o :| o in served && o.url in known && UrlFile(o.url) == UrlFile(url) && o.body == disk.files[UrlFile(url)];
    assert o.url == url;
  }

  // ----- the phases

  lemma {:induction false} PlanSound(st: State, known: set<Url>, urls: seq<Url>, interval: nat)
    requires DistinctFiles(known) && CacheSound(st.cache, st.disk, st.served, known) && forall u <- urls :: u in known
    ensures PairsServed(PlannedFresh(st.cache, st.disk, urls, interval, st.clock), st.served)
    ensures forall j <- PlannedJobs(st.cache, st.disk, urls, interval, st.clock) :: j.url in known
  {
    hide UrlFile, ServedBody;
    if urls == [] {
    } else {
      PlanSound(st, known, urls[1..], interval);
      var body := FreshBody(st.cache, st.disk, urls[0], interval, st.clock);
      if body.Some? {
        FileIsOwn(st.disk, st.served, known, urls[0]);
      }
    }
  }

  lemma MergeOneSound(cache: Cache, disk: Disk, served: set<Origin>, known: set<Url>, d: Download, now: nat)
    requires DistinctFiles(known) && CacheSound(cache, disk, served, known) && DownloadServed(d, served, known)
    ensures var (c, k, body) := MergeOne(cache, disk, d, now);
            CacheSound(c, k, served, known) && (body.Some? ==> ServedBody(served, d.url, body.value))
  {
    hide UrlFile, ServedBody;
    var (c, k, body) := MergeOne(cache, disk, d, now);
    match d.result
    case Fresh(text, etag) =>
      assert ServedBody(served, d.url, text) by {
        DeliveredIsServed(served, Origin(d.url, etag, text));
      }
      if d.stored {
        forall f | f in k.files
          ensures exists o <- served :: o.url in known && UrlFile(o.url) == f && o.body == k.files[f]
        {
          if f == UrlFile(d.url) {
            assert Origin(d.url, etag, text) in served;
          } else {
            assert f in disk.files;
          }
        }
      }
    case NotModified =>
      if UrlFile(d.url) in disk.files {
        FileIsOwn(disk, served, known, d.url);
      }
    case StaleFallback(text) =>
    case Failed =>
  }

  lemma DeliveredIsServed(served: set<Origin>, o: Origin)
    requires o in served
    ensures ServedBody(served, o.url, o.body)
  {
  }

  lemma {:induction false} MergeSound(cache: Cache, disk: Disk, served: set<Origin>, known: set<Url>,
                                      downloads: seq<Download>, now: nat)
    requires DistinctFiles(known) && CacheSound(cache, disk, served, known)
    requires forall d <- downloads :: DownloadServed(d, served, known)
    ensures var (c, k, bodies) := MergeAll(cache, disk, downloads, now);
            CacheSound(c, k, served, known) && PairsServed(bodies, served)
    decreases |downloads|
  {
    hide MergeOne, CacheSound, DownloadServed, DistinctFiles, ServedBody;
    if downloads == [] {
    } else {
      MergeOneSound(cache, disk, served, known, downloads[0], now);
      var (c, k, body) := MergeOne(cache, disk, downloads[0], now);
      MergeSound(c, k, served, known, downloads[1..], now);
    }
  }

  lemma BuildServed(current: seq<(Url, Text)>, merged: seq<(Url, Text)>, served: set<Origin>)
    requires PairsServed(current, served) && PairsServed(merged, served)
    ensures BodiesServed(BuildBodies(current, merged), served)
  {
    hide ServedBody;
    AsMapKeys(current);
    AsMapKeys(merged);
    forall u | u in BuildBodies(current, merged)
      ensures ServedBody(served, u, BuildBodies(current, merged)[u])
    {
      if u in AsMap(merged) {
        assert (u, AsMap(merged)[u]) in merged;
      } else {
        assert (u, AsMap(current)[u]) in current;
      }
    }
  }

  lemma PruneSaveSound(cache: Cache, disk: Disk, served: set<Origin>, known: set<Url>, keep: set<Url>,
                       stuck: set<FileId>, written: bool)
    requires CacheSound(cache, disk, served, known)
    ensures var (c, d) := Pruned(cache, disk, keep, stuck);
            var (c', d') := Saved(c, d, written);
            CacheSound(c', d', served, known)
  {
    hide UrlFile;
  }

  lemma FinishSound(st: State, known: set<Url>, e: Event)
    requires DistinctFiles(known) && Sound(st, known) && Enabled(st, known, e) && e.Finish?
    ensures var st' := Do(st, known, e);
            && st.served <= st'.served && st'.cache == st.cache && st'.disk == st.disk
            && PhaseSound(st'.tasks[e.t], st'.served, known)
  {
    hide UrlFile, ServedBody, DownloadOne;
    var st' := Do(st, known, e);
    var p := st.tasks[e.t];
    var url := p.pending[e.i].url;
    assert PhaseSound(p, st.served, known);
    PhaseGrows(p, st.served, st'.served, known);
    var cached := BodyOf(st.disk, UrlFile(url));
    var result := DownloadOne(e.first, cached, e.second);
    if result.StaleFallback? {
      StaleIsCached(e.first, cached, e.second);
      FileIsOwn(st.disk, st.served, known, url);
    }
    assert DownloadServed(Download(url, result, e.stored), st'.served, known);
  }

  lemma StaleIsCached(first: Response, cached: Option<Text>, second: Response)
    ensures DownloadOne(first, cached, second).StaleFallback? ==>
            cached == Some(DownloadOne(first, cached, second).body)
  {
  }

  lemma SoundStep(st: State, known: set<Url>, e: Event)
    requires DistinctFiles(known) && Sound(st, known) && Enabled(st, known, e)
    ensures Sound(Do(st, known, e), known)
  {
    hide UrlFile, ServedBody, CacheSound, BodiesServed, PairsServed, DownloadServed, DownloadOne, MergeAll, Pruned,
      Saved, PlannedFresh, PlannedJobs, BuildBodies;
    var st' := Do(st, known, e);
    match e
    case Plan(t, urls, interval) =>
      assert PhaseSound(st'.tasks[t], st.served, known) by {
        PlanSound(st, known, urls, interval);
      }
    case Finish(t, i, first, second, stored) =>
      FinishSound(st, known, e);
      CacheGrows(st.cache, st.disk, st.served, st'.served, known);
      forall u | u in st'.tasks && u != t
        ensures PhaseSound(st'.tasks[u], st'.served, known)
      {
        PhaseGrows(st.tasks[u], st.served, st'.served, known);
      }
      if st.published.Some? {
        PhaseGrows(Built([], st.published.value), st.served, st'.served, known);
      }
    case Lose(t, i) =>
      assert PhaseSound(st.tasks[t], st.served, known);
    case Merge(t) =>
      var p := st.tasks[t];
      assert PhaseSound(p, st.served, known);
      MergeSound(st.cache, st.disk, st.served, known, p.finished, st.clock);
      BuildServed(p.current, MergeAll(st.cache, st.disk, p.finished, st.clock).2, st.served);
    case PruneSave(t, stuck, written) =>
      assert PhaseSound(st.tasks[t], st.served, known);
      PruneSaveSound(st.cache, st.disk, st.served, known, Keep(st.tasks[t].urls), stuck, written);
    case Publish(t) =>
      assert PhaseSound(st.tasks[t], st.served, known);
    case Tick(n) =>
    case Exit(written) =>
      SavedSound(st, known, written);
  }

  lemma SavedSound(st: State, known: set<Url>, written: bool)
    requires CacheSound(st.cache, st.disk, st.served, known)
    ensures var (c, d) := Saved(st.cache, st.disk, written); CacheSound(c, d, st.served, known)
  {
    hide UrlFile;
  }

  /**
   Under every interleaving of builds: ETags and files stay matched, every file holds a body of its own URL, and all
   that is being built or is published was delivered whole by the URL it stands for.
   */
  lemma {:induction false} EveryRunSound(st: State, known: set<Url>, events: seq<Event>)
    requires DistinctFiles(known) && Sound(st, known) && Run(st, known, events)
    ensures Sound(After(st, known, events), known)
    decreases |events|
  {
    hide Sound, Do, Enabled, DistinctFiles;
    if events == [] {
    } else {
      SoundStep(st, known, events[0]);
      EveryRunSound(Do(st, known, events[0]), known, events[1..]);
    }
  }

  // ----- memory and disk in step

  /** A restart would load what is in memory, unless the dirty flag says otherwise. */
  ghost predicate Synced(st: State) {
    !st.cache.dirty ==> Loaded(st.disk) == st.cache.entries
  }

  predicate SavesSucceed(e: Event) {
    (e.PruneSave? ==> e.written) && (e.Exit? ==> e.written)
  }

  lemma {:induction false} MergeMarksChanges(cache: Cache, disk: Disk, downloads: seq<Download>, now: nat)
    ensures var (c, k, _) := MergeAll(cache, disk, downloads, now);
            k.saved == disk.saved && (!c.dirty ==> c == cache)
    decreases |downloads|
  {
    hide UrlFile;
    if downloads == [] {
    } else {
      var (c, k, _) := MergeOne(cache, disk, downloads[0], now);
      MergeMarksChanges(c, k, downloads[1..], now);
    }
  }

  /** Merging marks the cache exactly when a body was stored or an entry was confirmed. */
  lemma {:induction false} MergeMarksExactly(cache: Cache, disk: Disk, downloads: seq<Download>, now: nat)
    ensures MergeAll(cache, disk, downloads, now).0.dirty <==>
            || cache.dirty
            || exists d <- downloads ::
                 (d.result.Fresh? && d.stored) || (d.result.NotModified? && d.url in cache.entries)
    decreases |downloads|
  {
    hide UrlFile;
    if downloads == [] {
    } else {
      var (c, k, _) := MergeOne(cache, disk, downloads[0], now);
      MergeMarksExactly(c, k, downloads[1..], now);
      assert downloads == [downloads[0]] + downloads[1..];
    }
  }

  lemma PruneMarksChanges(cache: Cache, disk: Disk, keep: set<Url>, stuck: set<FileId>)
    ensures var (c, d) := Pruned(cache, disk, keep, stuck);
            d.saved == disk.saved && (!c.dirty ==> c == cache)
  {
    if Doomed(cache.entries, keep) == {} {
      assert cache.entries - {} == cache.entries;
    }
  }

  lemma SyncedStep(st: State, known: set<Url>, e: Event)
    requires Synced(st) && Enabled(st, known, e) && SavesSucceed(e)
    ensures Synced(Do(st, known, e))
  {
    hide UrlFile, MergeAll, Pruned, PlannedFresh, PlannedJobs, BuildBodies, DownloadOne;
    match e
    case Merge(t) => MergeMarksChanges(st.cache, st.disk, st.tasks[t].finished, st.clock);
    case PruneSave(t, stuck, written) =>
      PruneMarksChanges(st.cache, st.disk, Keep(st.tasks[t].urls), stuck);
      var (c, d) := Pruned(st.cache, st.disk, Keep(st.tasks[t].urls), stuck);
      SaveSynchronizes(c, d, written);
    case Exit(written) => SaveSynchronizes(st.cache, st.disk, written);
    case _ =>
  }

  /**
   When saving succeeds, a clean flag means the saved metadata is the metadata in memory, at every moment of every
   run.
   */
  lemma {:induction false} EveryRunSynced(st: State, known: set<Url>, events: seq<Event>)
    requires Synced(st) && Run(st, known, events) && forall e <- events :: SavesSucceed(e)
    ensures Synced(After(st, known, events))
    decreases |events|
  {
    hide Synced, Do, Enabled, SavesSucceed;
    if events == [] {
    } else {
      assert events[0] in events;
      SyncedStep(st, known, events[0]);
      EveryRunSynced(Do(st, known, events[0]), known, events[1..]);
    }
  }

  // ----- starting and stopping

  /** The program with nothing cached yet. */
  const NOTHING_CACHED: State := State(Cache(map[], false), Disk(map[], None), {}, 0, map[], None)

  /** The program started again on the disk that another run has left. */
  function Restarted(st: State): State {
    State(Cache(Loaded(st.disk), false), st.disk, st.served, st.clock, map[], None)
  }

  /** The first start is sound, and so is every restart of a run that was stopped when memory and disk were in step. */
  lemma StartsSound(st: State, known: set<Url>)
    ensures Sound(NOTHING_CACHED, known) && Synced(NOTHING_CACHED) && Tracked(NOTHING_CACHED)
            && Accounted(NOTHING_CACHED)
    ensures Sound(st, known) && Synced(st) && !st.cache.dirty ==> Sound(Restarted(st), known)
    ensures Tracked(st) && Synced(st) && !st.cache.dirty ==> Tracked(Restarted(st))
    ensures Synced(Restarted(st)) && Accounted(Restarted(st))
  {
    hide UrlFile, EtagsMatch, FilesServed, PhaseSound;
    if Synced(st) && !st.cache.dirty {
      assert Restarted(st).cache == st.cache;
    }
    NothingIsSound(known);
  }

  lemma NothingIsSound(known: set<Url>)
    ensures Sound(NOTHING_CACHED, known)
  {
  }

  /**
   A run whose saves succeed, ended by the shutdown save, can be restarted: the new run loads what the old one knew.
   */
  lemma ShutdownIsSound(st: State, known: set<Url>, events: seq<Event>)
    requires DistinctFiles(known) && Sound(st, known) && Synced(st) && Run(st, known, events)
    requires forall e <- events :: SavesSucceed(e)
    ensures var last := After(st, known, events);
            var restarted := Restarted(Do(last, known, Exit(true)));
            && restarted.cache.entries == last.cache.entries
            && Sound(restarted, known) && Synced(restarted)
  {
    hide Sound, Synced, Do, Run, After, DistinctFiles, SavesSucceed;
    var last := After(st, known, events);
    EveryRunSound(st, known, events);
    EveryRunSynced(st, known, events);
    ExitSynchronizes(last, known);
    SoundStep(last, known, Exit(true));
    StartsSound(Do(last, known, Exit(true)), known);
  }

  lemma ExitSynchronizes(st: State, known: set<Url>)
    requires Synced(st)
    ensures var st' := Do(st, known, Exit(true));
            Enabled(st, known, Exit(true)) && Synced(st') && !st'.cache.dirty
                && Restarted(st').cache.entries == st.cache.entries
  {
    SaveSynchronizes(st.cache, st.disk, true);
  }

  // ----- no list is lost

  /** Every URL of a build in progress is fresh, to be downloaded, downloaded, or was lost by a download that died. */
  ghost predicate PhaseAccounted(p: Phase) {
    p.Downloading? ==> forall u <- p.urls ::
      || (exists c <- p.current :: c.0 == u)
      || (exists j <- p.pending :: j.url == u)
      || (exists d <- p.finished :: d.url == u)
      || (exists j <- p.lost :: j.url == u)
  }

  ghost predicate Accounted(st: State) {
    forall t <- st.tasks :: PhaseAccounted(st.tasks[t])
  }

  lemma PlanAccounts(st: State, urls: seq<Url>, interval: nat, u: Url)
    requires u in urls
    ensures (exists c <- PlannedFresh(st.cache, st.disk, urls, interval, st.clock) :: c.0 == u)
         || (exists j <- PlannedJobs(st.cache, st.disk, urls, interval, st.clock) :: j.url == u)
  {
    hide FreshBody, EtagOf;
    if FreshBody(st.cache, st.disk, u, interval, st.clock).None? {
      StaleHasJob(st.cache, st.disk, urls, interval, st.clock, u);
    } else {
      FreshIsCurrent(st.cache, st.disk, urls, interval, st.clock, u);
    }
  }

  lemma {:induction false} FreshIsCurrent(cache: Cache, disk: Disk, urls: seq<Url>, interval: nat, now: nat, u: Url)
    requires u in urls && FreshBody(cache, disk, u, interval, now).Some?
    ensures exists c <- PlannedFresh(cache, disk, urls, interval, now) :: c.0 == u
  {
    hide FreshBody;
    var current := PlannedFresh(cache, disk, urls, interval, now);
    if urls[0] == u {
      assert current[0] in current;
    } else {
      FreshIsCurrent(cache, disk, urls[1..], interval, now, u);
      var c :| c in PlannedFresh(cache, disk, urls[1..], interval, now) && c.0 == u;
      assert c in current;
    }
  }

  lemma TakenOut(jobs: seq<Job>, i: nat, j: Job)
    requires i < |jobs| && j in jobs
    ensures j == jobs[i] || j in Without(jobs, i)
  {
    var k :| 0 <= k < |jobs| && jobs[k] == j;
    if k < i {
      assert Without(jobs, i)[k] == j;
    } else if k > i {
      assert Without(jobs, i)[k - 1] == j;
    }
  }

  lemma ProgressAccounts(p: Phase, i: nat, d: Option<Download>)
    requires p.Downloading? && PhaseAccounted(p) && i < |p.pending|
    requires d.Some? ==> d.value.url == p.pending[i].url
    ensures PhaseAccounted(if d.Some? then p.(pending := Without(p.pending, i), finished := p.finished + [d.value])
                           else p.(pending := Without(p.pending, i), lost := p.lost + [p.pending[i]]))
  {
    var p' := if d.Some? then p.(pending := Without(p.pending, i), finished := p.finished + [d.value])
              else p.(pending := Without(p.pending, i), lost := p.lost + [p.pending[i]]);
    assert p.pending[i] in p.pending;
    assert if d.Some? then d.value in p'.finished else p.pending[i] in p'.lost;
    forall j | j in p.pending
      ensures j == p.pending[i] || j in p'.pending
    {
      TakenOut(p.pending, i, j);
    }
    assert forall x <- p.finished :: x in p'.finished;
    assert forall x <- p.lost :: x in p'.lost;
  }

  lemma AccountedStep(st: State, known: set<Url>, e: Event)
    requires Accounted(st) && Enabled(st, known, e)
    ensures Accounted(Do(st, known, e))
  {
    hide UrlFile, DownloadOne, MergeAll, PlannedFresh, PlannedJobs, BuildBodies, Pruned, Saved, PhaseAccounted;
    var st' := Do(st, known, e);
    match e
    case Plan(t, urls, interval) =>
      assert PhaseAccounted(st'.tasks[t]) by { PlanPhaseAccounts(st, urls, interval); }
    case Finish(t, i, first, second, stored) =>
      var url := st.tasks[t].pending[i].url;
      var d := Download(url, DownloadOne(first, BodyOf(st.disk, UrlFile(url)), second), stored);
      ProgressAccounts(st.tasks[t], i, Some(d));
    case Lose(t, i) => ProgressAccounts(st.tasks[t], i, None);
    case Merge(t) => OthersAccount(st'.tasks[t]);
    case PruneSave(t, _, _) => OthersAccount(st'.tasks[t]);
    case Publish(t) => OthersAccount(st'.tasks[t]);
    case _ =>
  }

  lemma OthersAccount(p: Phase)
    ensures !p.Downloading? ==> PhaseAccounted(p)
  {
  }

  lemma PlanPhaseAccounts(st: State, urls: seq<Url>, interval: nat)
    ensures PhaseAccounted(Downloading(urls, PlannedFresh(st.cache, st.disk, urls, interval, st.clock),
                                       PlannedJobs(st.cache, st.disk, urls, interval, st.clock), [], []))
  {
    hide PlannedFresh, PlannedJobs;
    forall u | u in urls
      ensures (exists c <- PlannedFresh(st.cache, st.disk, urls, interval, st.clock) :: c.0 == u)
           || (exists j <- PlannedJobs(st.cache, st.disk, urls, interval, st.clock) :: j.url == u)
    {
      PlanAccounts(st, urls, interval, u);
    }
  }

  lemma {:induction false} EveryRunAccounted(st: State, known: set<Url>, events: seq<Event>)
    requires Accounted(st) && Run(st, known, events)
    ensures Accounted(After(st, known, events))
    decreases |events|
  {
    hide Accounted, Do, Enabled;
    if events == [] {
    } else {
      AccountedStep(st, known, events[0]);
      EveryRunAccounted(Do(st, known, events[0]), known, events[1..]);
    }
  }

  /**
   No list is silently dropped from any build of any run: a configured URL has a body in the build exactly if it was
   fresh or some download of it is usable. One without a body was lost with its download, or has a finished download
   that brought nothing.
   */
  lemma NoListDropped(st: State, known: set<Url>, t: TaskId, u: Url)
    requires DistinctFiles(known) && Sound(st, known) && Accounted(st) && Enabled(st, known, Merge(t))
    requires u in st.tasks[t].urls
    ensures var p := st.tasks[t];
            var bodies := Do(st, known, Merge(t)).tasks[t].bodies;
            && (u in bodies <==>
                  (exists c <- p.current :: c.0 == u) || exists d <- p.finished :: d.url == u && Usable(st.disk, d))
            && (u !in bodies ==>
                  (exists j <- p.lost :: j.url == u) || exists d <- p.finished :: d.url == u && !Usable(st.disk, d))
  {
    hide UrlFile, MergeAll, BuildBodies, EtagsMatch, FilesServed, Usable, PairsServed;
    var p := st.tasks[t];
    assert PhaseAccounted(p) && PhaseSound(p, st.served, known);
    assert Apart(p.finished) by {
      forall d, e | d in p.finished && e in p.finished && UrlFile(d.url) == UrlFile(e.url)
        ensures d.url == e.url
      {
        assert DownloadServed(d, st.served, known) && DownloadServed(e, st.served, known);
      }
    }
    UsableListIsBuilt(p.current, st.cache, st.disk, p.finished, st.clock, u);
  }

  // ----- what is published

  /** The task has merged exactly these bodies and not yet published them. */
  ghost predicate HoldsBuild(st: State, t: TaskId, bodies: map<Url, Text>) {
    var p := PhaseOf(st, t);
    (p.Merged? || p.Built?) && p.bodies == bodies
  }

  lemma {:induction false} BuildIsHeld(st: State, known: set<Url>, events: seq<Event>, t: TaskId,
                                       bodies: map<Url, Text>)
    requires Run(st, known, events) && HoldsBuild(st, t, bodies) && Publish(t) !in events
    ensures HoldsBuild(After(st, known, events), t, bodies)
    decreases |events|
  {
    hide UrlFile, DownloadOne, MergeAll, PlannedFresh, PlannedJobs, BuildBodies, Pruned, Saved;
    if events == [] {
    } else {
      assert events[0] in events && forall e <- events[1..] :: e in events;
      BuildIsHeld(Do(st, known, events[0]), known, events[1..], t, bodies);
    }
  }

  lemma {:induction false} PublishedStays(st: State, known: set<Url>, events: seq<Event>)
    requires Run(st, known, events) && forall e <- events :: !e.Publish?
    ensures After(st, known, events).published == st.published
    decreases |events|
  {
    hide UrlFile, DownloadOne, MergeAll, PlannedFresh, PlannedJobs, BuildBodies, Pruned, Saved;
    if events == [] {
    } else {
      assert events[0] in events && forall e <- events[1..] :: e in events;
      PublishedStays(Do(st, known, events[0]), known, events[1..]);
    }
  }

  /**
   The query handlers see what was merged: whatever happens between a build's merge and its publication, the bodies
   published are those that were fresh at its plan and those its downloads brought, and they stay until the next
   publication.
   */
  lemma PublishedIsMerged(st: State, known: set<Url>, t: TaskId, before: seq<Event>, after: seq<Event>)
    requires Enabled(st, known, Merge(t)) && Run(Do(st, known, Merge(t)), known, before) && Publish(t) !in before
    requires var last := After(Do(st, known, Merge(t)), known, before);
             && Enabled(last, known, Publish(t)) && Run(Do(last, known, Publish(t)), known, after)
             && forall e <- after :: !e.Publish?
    ensures var last := After(Do(st, known, Merge(t)), known, before);
            var p := st.tasks[t];
            After(Do(last, known, Publish(t)), known, after).published ==
            Some(BuildBodies(p.current, MergeAll(st.cache, st.disk, p.finished, st.clock).2))
  {
    hide UrlFile, MergeAll, BuildBodies, Run, After;
    var p := st.tasks[t];
    var last := After(Do(st, known, Merge(t)), known, before);
    BuildIsHeld(Do(st, known, Merge(t)), known, before, t,
                BuildBodies(p.current, MergeAll(st.cache, st.disk, p.finished, st.clock).2));
    PublishedStays(Do(last, known, Publish(t)), known, after);
  }

  // ----- no file without its metadata

  /** Every body file belongs to a metadata entry. */
  ghost predicate Tracked(st: State) {
    CacheTracked(st.cache, st.disk)
  }

  ghost predicate CacheTracked(cache: Cache, disk: Disk) {
    forall f <- disk.files :: exists u <- cache.entries :: UrlFile(u) == f
  }

  lemma {:induction false} MergeTracked(cache: Cache, disk: Disk, downloads: seq<Download>, now: nat)
    requires CacheTracked(cache, disk)
    ensures var (c, k, _) := MergeAll(cache, disk, downloads, now); CacheTracked(c, k)
    decreases |downloads|
  {
    hide UrlFile, MergeOne, CacheTracked;
    if downloads == [] {
    } else {
      var (c, k, _) := MergeOne(cache, disk, downloads[0], now);
      MergeOneTracked(cache, disk, downloads[0], now);
      MergeTracked(c, k, downloads[1..], now);
    }
  }

  lemma MergeOneTracked(cache: Cache, disk: Disk, d: Download, now: nat)
    requires CacheTracked(cache, disk)
    ensures var (c, k, _) := MergeOne(cache, disk, d, now); CacheTracked(c, k)
  {
    hide UrlFile;
    var (c, k, _) := MergeOne(cache, disk, d, now);
    assert forall u <- cache.entries :: u in c.entries;
    assert d.result.Fresh? && d.stored ==> d.url in c.entries;
  }

  /**
   A prune leaves no file without its metadata exactly if every file it had to remove, and that was there, would go.
   */
  lemma PrunedTracked(cache: Cache, disk: Disk, keep: set<Url>, stuck: set<FileId>, known: set<Url>)
    requires DistinctFiles(known) && CacheTracked(cache, disk) && Named(cache, known)
    ensures var (c, d) := Pruned(cache, disk, keep, stuck);
            CacheTracked(c, d) <==>
            forall u <- cache.entries :: u !in keep && UrlFile(u) in stuck ==> UrlFile(u) !in disk.files
  {
    hide UrlFile;
    var (c, d) := Pruned(cache, disk, keep, stuck);
    if forall u <- cache.entries :: u !in keep && UrlFile(u) in stuck ==> UrlFile(u) !in disk.files {
      forall f | f in d.files
        ensures exists u <- c.entries :: UrlFile(u) == f
      {
        var u :| u in cache.entries && UrlFile(u) == f;
        assert u in c.entries;
      }
    }
    forall u | u in cache.entries && u !in keep && UrlFile(u) in stuck && UrlFile(u) in disk.files
      ensures !CacheTracked(c, d)
    {
      assert UrlFile(u) in d.files;
      assert forall v <- c.entries :: v in known && v != u;
    }
  }

  predicate RemovalsSucceed(e: Event) {
    e.PruneSave? ==> e.stuck == {}
  }

  lemma TrackedStep(st: State, known: set<Url>, e: Event)
    requires DistinctFiles(known) && Tracked(st) && Sound(st, known) && Enabled(st, known, e) && RemovalsSucceed(e)
    ensures Tracked(Do(st, known, e))
  {
    hide UrlFile, DownloadOne, MergeAll, PlannedFresh, PlannedJobs, BuildBodies, Pruned, CacheTracked, PhaseSound;
    match e
    case Merge(t) => MergeTracked(st.cache, st.disk, st.tasks[t].finished, st.clock);
    case PruneSave(t, stuck, written) =>
      PrunedTracked(st.cache, st.disk, Keep(st.tasks[t].urls), stuck, known);
      var (c, d) := Pruned(st.cache, st.disk, Keep(st.tasks[t].urls), stuck);
      SavedTracked(c, d, written);
    case Exit(written) => SavedTracked(st.cache, st.disk, written);
    case _ =>
  }

  lemma SavedTracked(cache: Cache, disk: Disk, written: bool)
    requires CacheTracked(cache, disk)
    ensures var (c, d) := Saved(cache, disk, written); CacheTracked(c, d)
  {
    hide UrlFile;
  }

  /** In every run in which removals succeed, no body file is without its metadata. */
  lemma {:induction false} EveryRunTracked(st: State, known: set<Url>, events: seq<Event>)
    requires DistinctFiles(known) && Tracked(st) && Sound(st, known) && Run(st, known, events)
    requires forall e <- events :: RemovalsSucceed(e)
    ensures Tracked(After(st, known, events))
    decreases |events|
  {
    hide Tracked, Sound, Do, Enabled, DistinctFiles, RemovalsSucceed;
    if events == [] {
    } else {
      assert events[0] in events;
      TrackedStep(st, known, events[0]);
      SoundStep(st, known, events[0]);
      EveryRunTracked(Do(st, known, events[0]), known, events[1..]);
    }
  }

  // ----- pruning

  /**
   A build ends with metadata for none but its configured URLs; no configured URL lost its entry or its file, and
   every other entry is lost, with its file unless that could not be removed. The metadata is written exactly when
   something changed and the disk takes it.
   */
  lemma PruneKeepsConfigured(st: State, known: set<Url>, t: TaskId, stuck: set<FileId>, written: bool)
    requires DistinctFiles(known) && Sound(st, known) && Enabled(st, known, PruneSave(t, stuck, written))
    ensures var st' := Do(st, known, PruneSave(t, stuck, written));
            var keep := Keep(st.tasks[t].urls);
            && st'.cache.entries.Keys == st.cache.entries.Keys * keep
            && (forall u <- st'.cache.entries :: st'.cache.entries[u] == st.cache.entries[u])
            && (forall u <- keep :: BodyOf(st'.disk, UrlFile(u)) == BodyOf(st.disk, UrlFile(u)))
            && (forall u <- st.cache.entries :: u !in keep ==>
                  (UrlFile(u) in st'.disk.files <==> UrlFile(u) in st.disk.files && UrlFile(u) in stuck))
            && !st'.cache.dirty
            && st'.disk.saved == (if written && (st.cache.dirty || exists u <- st.cache.entries :: u !in keep)
                                  then Some(st'.cache.entries) else st.disk.saved)
  {
    hide UrlFile, EtagsMatch, FilesServed, BodiesServed;
    assert PhaseSound(st.tasks[t], st.served, known);
  }

  // ----- freshness over time

  /** The clock has reached `since`, and an entry of `u` was not fetched before it. */
  ghost predicate FetchedSince(st: State, u: Url, since: nat) {
    since <= st.clock && (u in st.cache.entries ==> since <= st.cache.entries[u].fetchedAt)
  }

  /** The downloads that make an entry current: bodies that were stored, and confirmations. */
  predicate Renews(d: Download, u: Url) {
    d.url == u && ((d.result.Fresh? && d.stored) || d.result.NotModified?)
  }

  /** The download brings a new body for the URL, and the disk takes it. */
  predicate StoresNew(d: Download, u: Url) {
    d.url == u && d.result.Fresh? && d.stored
  }

  /** Merging changes an entry exactly by a renewal, and a renewed entry is as of now. */
  lemma {:induction false} MergeRenews(cache: Cache, disk: Disk, downloads: seq<Download>, now: nat, u: Url)
    ensures var (c, k, _) := MergeAll(cache, disk, downloads, now);
            && (u in cache.entries ==> u in c.entries)
            && (u in c.entries && (u !in cache.entries || c.entries[u] != cache.entries[u]) ==>
                  c.entries[u].fetchedAt == now && exists d <- downloads :: Renews(d, u))
            && (u in c.entries && (exists d <- downloads :: Renews(d, u)) && u in cache.entries ==>
                  c.entries[u].fetchedAt == now)
            && ((exists d <- downloads :: StoresNew(d, u)) ==>
                  u in c.entries && c.entries[u].fetchedAt == now && UrlFile(u) in k.files)
    decreases |downloads|
  {
    hide UrlFile;
    if downloads == [] {
    } else {
      var (c, k, _) := MergeOne(cache, disk, downloads[0], now);
      MergeRenews(c, k, downloads[1..], now, u);
      FilesStay(c, k, downloads[1..], now);
      assert downloads == [downloads[0]] + downloads[1..];
      assert downloads[0] in downloads;
      if Renews(downloads[0], u) && u in cache.entries {
        assert c.entries[u].fetchedAt == now;
      }
    }
  }

  lemma {:induction false} FilesStay(cache: Cache, disk: Disk, downloads: seq<Download>, now: nat)
    ensures disk.files.Keys <= MergeAll(cache, disk, downloads, now).1.files.Keys
    decreases |downloads|
  {
    hide UrlFile;
    if downloads == [] {
    } else {
      var (c, k, _) := MergeOne(cache, disk, downloads[0], now);
      FilesStay(c, k, downloads[1..], now);
    }
  }

  /** The entry of `u` is no older than `since` and its file is in place. */
  ghost predicate InPlace(st: State, u: Url, since: nat) {
    since <= st.clock && u in st.cache.entries && since <= st.cache.entries[u].fetchedAt && UrlFile(u) in st.disk.files
  }

  ghost predicate PrunesKeep(st: State, known: set<Url>, events: seq<Event>, u: Url)
    requires Run(st, known, events)
    decreases |events|
  {
    events == [] ||
    ((events[0].PruneSave? ==> u in st.tasks[events[0].t].urls)
        && PrunesKeep(Do(st, known, events[0]), known, events[1..], u))
  }

  lemma InPlaceStep(st: State, known: set<Url>, e: Event, u: Url, since: nat)
    requires DistinctFiles(known) && Sound(st, known) && Enabled(st, known, e) && InPlace(st, u, since)
    requires e.PruneSave? ==> u in st.tasks[e.t].urls
    ensures InPlace(Do(st, known, e), u, since)
  {
    hide UrlFile, MergeAll, PlannedFresh, PlannedJobs, BuildBodies, DownloadOne, Renews, StoresNew, EtagsMatch,
        FilesServed,
      PhaseSound;
    match e
    case Merge(t) =>
      MergeRenews(st.cache, st.disk, st.tasks[t].finished, st.clock, u);
      FilesStay(st.cache, st.disk, st.tasks[t].finished, st.clock);
    case _ =>
  }

  lemma {:induction false} InPlaceRun(st: State, known: set<Url>, events: seq<Event>, u: Url, since: nat)
    requires DistinctFiles(known) && Sound(st, known) && InPlace(st, u, since)
    requires Run(st, known, events) && PrunesKeep(st, known, events, u)
    ensures InPlace(After(st, known, events), u, since)
    decreases |events|
  {
    hide DistinctFiles, Sound, InPlace, Do, Enabled;
    if events == [] {
    } else {
      InPlaceStep(st, known, events[0], u, since);
      SoundStep(st, known, events[0]);
      InPlaceRun(Do(st, known, events[0]), known, events[1..], u, since);
    }
  }

  /**
   A list renewed, by a new body or a confirmation of the one in place, is not downloaded again while the interval runs,
   whatever other builds do, as long as their prunes keep it: no plan has a job for it.
   */
  lemma RenewedStaysFresh(st: State, known: set<Url>, t: TaskId, events: seq<Event>, u: Url, interval: nat,
                          urls: seq<Url>)
    requires DistinctFiles(known) && Sound(st, known) && Enabled(st, known, Merge(t))
    requires
      || (exists d <- st.tasks[t].finished :: StoresNew(d, u))
      || (u in st.cache.entries && UrlFile(u) in st.disk.files && exists d <- st.tasks[t].finished :: Renews(d, u))
    requires var merged := Do(st, known, Merge(t));
             && Run(merged, known, events) && PrunesKeep(merged, known, events, u)
             && After(merged, known, events).clock - st.clock < interval
    ensures var last := After(Do(st, known, Merge(t)), known, events);
            && FreshBody(last.cache, last.disk, u, interval, last.clock).Some?
            && forall j <- PlannedJobs(last.cache, last.disk, urls, interval, last.clock) :: j.url != u
  {
    hide DistinctFiles, Sound, InPlace, Do, Enabled, Run, After, PrunesKeep, FreshBody, UrlFile, Renews, StoresNew;
    var merged := Do(st, known, Merge(t));
    MergePutsInPlace(st, known, t, u);
    SoundStep(st, known, Merge(t));
    InPlaceRun(merged, known, events, u, st.clock);
    EveryRunSound(merged, known, events);
    var last := After(merged, known, events);
    InPlaceIsFresh(last, known, u, st.clock, interval);
    PlanDealsUrls(last.cache, last.disk, urls, interval, last.clock);
  }

  lemma InPlaceIsFresh(st: State, known: set<Url>, u: Url, since: nat, interval: nat)
    requires Sound(st, known) && InPlace(st, u, since) && st.clock - since < interval
    ensures FreshBody(st.cache, st.disk, u, interval, st.clock).Some?
  {
    hide UrlFile, EtagsMatch, FilesServed, PhaseSound;
  }

  lemma MergePutsInPlace(st: State, known: set<Url>, t: TaskId, u: Url)
    requires Sound(st, known) && Enabled(st, known, Merge(t))
    requires
      || (exists d <- st.tasks[t].finished :: StoresNew(d, u))
      || (u in st.cache.entries && UrlFile(u) in st.disk.files && exists d <- st.tasks[t].finished :: Renews(d, u))
    ensures InPlace(Do(st, known, Merge(t)), u, st.clock)
  {
    hide UrlFile, MergeAll, Renews, StoresNew, Sound, BuildBodies;
    MergeRenews(st.cache, st.disk, st.tasks[t].finished, st.clock, u);
    FilesStay(st.cache, st.disk, st.tasks[t].finished, st.clock);
  }

  lemma FetchedStep(st: State, known: set<Url>, e: Event, u: Url, since: nat)
    requires FetchedSince(st, u, since) && Enabled(st, known, e)
    ensures FetchedSince(Do(st, known, e), u, since)
    ensures var st' := Do(st, known, e);
            u in st.cache.entries && u in st'.cache.entries && st'.cache.entries[u] != st.cache.entries[u] ==>
              e.Merge? && st'.cache.entries[u].fetchedAt == st.clock
              && exists d <- st.tasks[e.t].finished :: Renews(d, u)
  {
    hide UrlFile, MergeAll, PlannedFresh, PlannedJobs, BuildBodies, DownloadOne, Renews;
    match e
    case Merge(t) => MergeRenews(st.cache, st.disk, st.tasks[t].finished, st.clock, u);
    case _ =>
  }

  /** The fetch time of a URL never goes back, however its entry comes and goes. */
  lemma {:induction false} FetchTimeNeverFalls(st: State, known: set<Url>, events: seq<Event>, u: Url, since: nat)
    requires FetchedSince(st, u, since) && Run(st, known, events)
    ensures FetchedSince(After(st, known, events), u, since)
    decreases |events|
  {
    hide FetchedSince, Do, Enabled;
    if events == [] {
    } else {
      FetchedStep(st, known, events[0], u, since);
      FetchTimeNeverFalls(Do(st, known, events[0]), known, events[1..], u, since);
    }
  }

  /** The URL would be planned for download. */
  ghost predicate Stale(st: State, u: Url, interval: nat) {
    FreshBody(st.cache, st.disk, u, interval, st.clock).None?
  }

  ghost predicate LeavesAlone(st: State, e: Event, u: Url) {
    e.Merge? && PhaseOf(st, e.t).Downloading? ==> forall d <- PhaseOf(st, e.t).finished :: !Renews(d, u)
  }

  ghost predicate NeverRenewed(st: State, known: set<Url>, events: seq<Event>, u: Url)
    requires Run(st, known, events)
    decreases |events|
  {
    events == [] || (LeavesAlone(st, events[0], u) && NeverRenewed(Do(st, known, events[0]), known, events[1..], u))
  }

  lemma {:induction false} MergeLeavesAlone(cache: Cache, disk: Disk, served: set<Origin>, known: set<Url>,
                                            downloads: seq<Download>, now: nat, u: Url)
    requires DistinctFiles(known) && CacheSound(cache, disk, served, known) && u in known
    requires forall d <- downloads :: DownloadServed(d, served, known) && !Renews(d, u)
    ensures var (c, k, _) := MergeAll(cache, disk, downloads, now);
            && (u in c.entries <==> u in cache.entries)
            && (u in cache.entries ==> c.entries[u] == cache.entries[u])
            && (u in cache.entries ==> BodyOf(k, cache.entries[u].filename) == BodyOf(disk, cache.entries[u].filename))
    decreases |downloads|
  {
    hide UrlFile, ServedBody;
    if downloads == [] {
    } else {
      var (c, k, _) := MergeOne(cache, disk, downloads[0], now);
      assert downloads[0] in downloads && !Renews(downloads[0], u);
      MergeOneSound(cache, disk, served, known, downloads[0], now);
      MergeLeavesAlone(c, k, served, known, downloads[1..], now, u);
    }
  }

  lemma StaleStep(st: State, known: set<Url>, e: Event, u: Url, interval: nat)
    requires DistinctFiles(known) && Sound(st, known) && u in known && Enabled(st, known, e)
    requires Stale(st, u, interval) && LeavesAlone(st, e, u)
    ensures Stale(Do(st, known, e), u, interval)
  {
    hide UrlFile, ServedBody, MergeAll, PlannedFresh, PlannedJobs, BuildBodies, DownloadOne, EtagsMatch, FilesServed;
    match e
    case Merge(t) =>
      assert PhaseSound(st.tasks[t], st.served, known);
      MergeLeavesAlone(st.cache, st.disk, st.served, known, st.tasks[t].finished, st.clock, u);
    case _ =>
  }

  /**
   A dead list is retried: once planned for download, a URL whose downloads bring nothing but stale copies and
   failures is planned for download by every later plan under the same freshness interval.
   */
  lemma {:induction false} StaleUntilRenewed(st: State, known: set<Url>, events: seq<Event>, u: Url, interval: nat)
    requires DistinctFiles(known) && Sound(st, known) && u in known && Run(st, known, events)
    requires Stale(st, u, interval) && NeverRenewed(st, known, events, u)
    ensures Stale(After(st, known, events), u, interval)
    decreases |events|
  {
    hide Sound, Do, Enabled, DistinctFiles, Stale, LeavesAlone;
    if events == [] {
    } else {
      StaleStep(st, known, events[0], u, interval);
      SoundStep(st, known, events[0]);
      StaleUntilRenewed(Do(st, known, events[0]), known, events[1..], u, interval);
    }
  }

  lemma {:induction false} StaleIsPlanned(cache: Cache, disk: Disk, urls: seq<Url>, interval: nat, now: nat, u: Url)
    requires u in urls
    ensures FreshBody(cache, disk, u, interval, now).None? <==>
            exists j <- PlannedJobs(cache, disk, urls, interval, now) :: j.url == u
  {
    hide FreshBody, EtagOf;
    PlanDealsUrls(cache, disk, urls, interval, now);
    if FreshBody(cache, disk, u, interval, now).None? {
      StaleHasJob(cache, disk, urls, interval, now, u);
    }
  }

  /**
   When a download is planned, told from the entry, the clock and the files: the list has no entry, or its entry is as
   old as the interval, or its file is missing. An entry from the future counts as new.
   */
  lemma DueIsPlanned(cache: Cache, disk: Disk, urls: seq<Url>, interval: nat, now: nat, u: Url)
    requires u in urls
    ensures (exists j <- PlannedJobs(cache, disk, urls, interval, now) :: j.url == u) <==>
            || u !in cache.entries
            || interval == 0 || cache.entries[u].fetchedAt + interval <= now
            || cache.entries[u].filename !in disk.files
    ensures (exists p <- PlannedFresh(cache, disk, urls, interval, now) :: p.0 == u) <==>
            !exists j <- PlannedJobs(cache, disk, urls, interval, now) :: j.url == u
    ensures forall p <- PlannedFresh(cache, disk, urls, interval, now) ::
              && p.0 in cache.entries && cache.entries[p.0].filename in disk.files
              && p.1 == disk.files[cache.entries[p.0].filename]
    ensures forall j <- PlannedJobs(cache, disk, urls, interval, now) ::
              j.etag == if j.url in cache.entries then cache.entries[j.url].etag else None
  {
    hide PlannedFresh, PlannedJobs;
    StaleIsPlanned(cache, disk, urls, interval, now, u);
    PlanDealsUrls(cache, disk, urls, interval, now);
    if FreshBody(cache, disk, u, interval, now).Some? {
      FreshIsCurrent(cache, disk, urls, interval, now, u);
    }
  }

  /** The entry of `u`, if there is one, was not fetched after `since`. */
  ghost predicate NotSince(st: State, u: Url, since: nat) {
    u in st.cache.entries ==> st.cache.entries[u].fetchedAt <= since
  }

  lemma NotSinceStep(st: State, known: set<Url>, e: Event, u: Url, since: nat)
    requires Enabled(st, known, e) && NotSince(st, u, since) && LeavesAlone(st, e, u)
    ensures NotSince(Do(st, known, e), u, since)
  {
    hide UrlFile, MergeAll, PlannedFresh, PlannedJobs, BuildBodies, DownloadOne, Renews;
    match e
    case Merge(t) => MergeRenews(st.cache, st.disk, st.tasks[t].finished, st.clock, u);
    case _ =>
  }

  lemma {:induction false} NotSinceRun(st: State, known: set<Url>, events: seq<Event>, u: Url, since: nat)
    requires NotSince(st, u, since) && Run(st, known, events) && NeverRenewed(st, known, events, u)
    ensures NotSince(After(st, known, events), u, since)
    decreases |events|
  {
    hide NotSince, LeavesAlone, Do, Enabled;
    if events == [] {
    } else {
      NotSinceStep(st, known, events[0], u, since);
      NotSinceRun(Do(st, known, events[0]), known, events[1..], u, since);
    }
  }

  /**
   A list comes due: over any run in which nothing renews it, once the clock is an interval past the time it was last
   fetched, every plan has a job for it.
   */
  lemma DueAgain(st: State, known: set<Url>, events: seq<Event>, u: Url, since: nat, t: TaskId, urls: seq<Url>,
                 interval: nat)
    requires NotSince(st, u, since) && Run(st, known, events) && NeverRenewed(st, known, events, u)
    requires since + interval <= After(st, known, events).clock && u in urls
    requires Enabled(After(st, known, events), known, Plan(t, urls, interval))
    ensures exists j <- Do(After(st, known, events), known, Plan(t, urls, interval)).tasks[t].pending :: j.url == u
  {
    hide Run, After, NeverRenewed, PlannedFresh, PlannedJobs;
    var last := After(st, known, events);
    NotSinceRun(st, known, events, u, since);
    DueIsPlanned(last.cache, last.disk, urls, interval, last.clock, u);
  }

  lemma {:induction false} StaleHasJob(cache: Cache, disk: Disk, urls: seq<Url>, interval: nat, now: nat, u: Url)
    requires u in urls && FreshBody(cache, disk, u, interval, now).None?
    ensures exists j <- PlannedJobs(cache, disk, urls, interval, now) :: j.url == u
  {
    hide FreshBody, EtagOf;
    var jobs := PlannedJobs(cache, disk, urls, interval, now);
    if urls[0] == u {
      assert jobs[0].url == u;
      assert jobs[0] in jobs;
    } else {
      assert u in urls[1..];
      StaleHasJob(cache, disk, urls[1..], interval, now, u);
      var j :| j in PlannedJobs(cache, disk, urls[1..], interval, now) && j.url == u;
      assert j in jobs;
    }
  }
}
