/**
 What a 304 confirms when builds overlap: the body the server meant, exactly as long as no other build has replaced it
 since the request was planned.
 */
module Confirmation {
  import opened Bytes
  import opened FileName
  import opened ListCache
  import opened CacheProtocol

  // ----- at the merge

  /** The server never delivered one body of the URL under two ETags. */
  ghost predicate TellsApart(served: set<Origin>, url: Url) {
    forall o <- served, o' <- served :: o.url == o'.url == url && o.body == o'.body ==> o.etag == o'.etag
  }

  /**
   A 304 serves the file as the entry's current ETag describes it. That is the body the server confirmed exactly if
   the entry still has the ETag the request carried. When the entry has vanished meanwhile, a body left behind is
   still one of this URL; and none is left behind as long as every file has its metadata.
   */
  lemma ConfirmationServesCurrent(st: State, known: set<Url>, url: Url, requested: Option<Etag>, stored: bool)
    requires DistinctFiles(known) && Sound(st, known) && url in known
    ensures var (_, _, body) := MergeOne(st.cache, st.disk, Download(url, NotModified, stored), st.clock);
            && (body.Some? && url in st.cache.entries ==>
                  && Origin(url, st.cache.entries[url].etag, body.value) in st.served
                  && (st.cache.entries[url].etag == requested ==> Origin(url, requested, body.value) in st.served)
                  && (TellsApart(st.served, url) ==>
                        (st.cache.entries[url].etag == requested <==> Origin(url, requested, body.value) in st.served)))
            && (body.Some? && url !in st.cache.entries ==> ServedBody(st.served, url, body.value))
            && (Tracked(st) && url !in st.cache.entries ==> body.None?)
  {
    hide UrlFile, PhaseSound, FilesServed, ServedBody;
    var (_, _, body) := MergeOne(st.cache, st.disk, Download(url, NotModified, stored), st.clock);
    if body.Some? && url !in st.cache.entries {
      FileIsOwn(st.disk, st.served, known, url);
    }
    if Tracked(st) && UrlFile(url) in st.disk.files {
      var u :| u in st.cache.entries && UrlFile(u) == UrlFile(url);
      assert u == url;
    }
  }

  // ----- from plan to merge

  /** The event neither stores a new body for the URL nor drops its entry; the build of task `t` is not merged yet. */
  ghost predicate Undisturbed(st: State, known: set<Url>, e: Event, t: TaskId, u: Url)
    requires Enabled(st, known, e)
  {
    match e
    case Merge(x) => x != t && forall d <- st.tasks[x].finished :: !StoresNew(d, u)
    case PruneSave(x, _, _) => u in st.tasks[x].urls
    case _ => true
  }

  ghost predicate LeftAlone(st: State, known: set<Url>, events: seq<Event>, t: TaskId, u: Url)
    requires Run(st, known, events)
    decreases |events|
  {
    events == [] ||
    (Undisturbed(st, known, events[0], t, u) && LeftAlone(Do(st, known, events[0]), known, events[1..], t, u))
  }

  /** Entry and file of the URL are as they were planned with, and so is all the build has gathered of it. */
  ghost predicate Kept(st: State, t: TaskId, u: Url, etag: Option<Etag>, body: Option<Text>) {
    && EntryKept(st.cache, st.disk, u, etag, body)
    && t in st.tasks && PhaseKept(st.tasks[t], u, etag, body)
  }

  ghost predicate EntryKept(cache: Cache, disk: Disk, u: Url, etag: Option<Etag>, body: Option<Text>) {
    && BodyOf(disk, UrlFile(u)) == body
    && (body.Some? ==> u in cache.entries)
    && (u in cache.entries ==> cache.entries[u].filename == UrlFile(u))
    && EtagOf(cache, u) == etag
  }

  ghost predicate PhaseKept(p: Phase, u: Url, etag: Option<Etag>, body: Option<Text>) {
    && p.Downloading?
    && (forall c <- p.current :: c.0 == u ==> Some(c.1) == body)
    && (forall j <- p.pending :: j.url == u ==> j.etag == etag)
    && (forall d <- p.finished :: StaleKept(d, u, body))
  }

  predicate StaleKept(d: Download, u: Url, body: Option<Text>) {
    d.url == u && d.result.StaleFallback? ==> Some(d.result.body) == body
  }

  lemma MergeOneKeeps(cache: Cache, disk: Disk, known: set<Url>, d: Download, now: nat,
                      u: Url, etag: Option<Etag>, body: Option<Text>)
    requires DistinctFiles(known) && u in known && d.url in known && !StoresNew(d, u)
    requires EntryKept(cache, disk, u, etag, body)
    ensures var (c, k, got) := MergeOne(cache, disk, d, now);
            && EntryKept(c, k, u, etag, body)
            && (d.url == u && StaleKept(d, u, body) && got.Some? ==> got == body)
  {
    hide UrlFile;
  }

  lemma {:induction false} MergeKeeps(cache: Cache, disk: Disk, known: set<Url>, downloads: seq<Download>, now: nat,
                                      u: Url, etag: Option<Etag>, body: Option<Text>)
    requires DistinctFiles(known) && u in known
    requires forall d <- downloads :: d.url in known && !StoresNew(d, u)
    requires EntryKept(cache, disk, u, etag, body)
    ensures var (c, k, bodies) := MergeAll(cache, disk, downloads, now);
            && EntryKept(c, k, u, etag, body)
            && ((forall d <- downloads :: StaleKept(d, u, body)) ==> forall p <- bodies :: p.0 == u ==>
                Some(p.1) == body)
    decreases |downloads|
  {
    hide MergeOne, EntryKept, DistinctFiles, StoresNew, StaleKept;
    if downloads == [] {
    } else {
      var (c, k, got) := MergeOne(cache, disk, downloads[0], now);
      assert downloads[0] in downloads;
      MergeOneKeeps(cache, disk, known, downloads[0], now, u, etag, body);
      MergeKeeps(c, k, known, downloads[1..], now, u, etag, body);
    }
  }

  lemma PruneKeeps(cache: Cache, disk: Disk, known: set<Url>, keep: set<Url>, stuck: set<FileId>, written: bool,
                   u: Url, etag: Option<Etag>, body: Option<Text>)
    requires DistinctFiles(known) && Named(cache, known) && u in known && u in keep
    requires EntryKept(cache, disk, u, etag, body)
    ensures var (c, d) := Pruned(cache, disk, keep, stuck);
            var (c', d') := Saved(c, d, written);
            EntryKept(c', d', u, etag, body)
  {
    hide UrlFile;
  }

  lemma FinishKeeps(st: State, known: set<Url>, e: Event, t: TaskId, u: Url, etag: Option<Etag>, body: Option<Text>)
    requires Kept(st, t, u, etag, body) && Enabled(st, known, e) && (e.Finish? || e.Lose?)
    ensures Kept(Do(st, known, e), t, u, etag, body)
  {
    hide UrlFile, DownloadOne, EntryKept;
    if e.Finish? && e.t == t {
      var url := st.tasks[t].pending[e.i].url;
      var cached := BodyOf(st.disk, UrlFile(url));
      StaleIsCached(e.first, cached, e.second);
      EntryKeptFile(st, u, etag, body);
    }
  }

  lemma EntryKeptFile(st: State, u: Url, etag: Option<Etag>, body: Option<Text>)
    ensures EntryKept(st.cache, st.disk, u, etag, body) ==> BodyOf(st.disk, UrlFile(u)) == body
  {
    hide UrlFile;
  }

  lemma KeptStep(st: State, known: set<Url>, e: Event, t: TaskId, u: Url, etag: Option<Etag>, body: Option<Text>)
    requires DistinctFiles(known) && Sound(st, known) && u in known && Kept(st, t, u, etag, body)
    requires Enabled(st, known, e) && Undisturbed(st, known, e, t, u)
    ensures Kept(Do(st, known, e), t, u, etag, body)
  {
    hide UrlFile, DownloadOne, MergeAll, PlannedFresh, PlannedJobs, BuildBodies, Pruned, Saved, EntryKept, PhaseKept,
      EtagsMatch, FilesServed, DistinctFiles, StoresNew;
    PhaseKeptIs(st.tasks[t], u, etag, body);
    match e
    case Finish(_, _, _, _, _) => FinishKeeps(st, known, e, t, u, etag, body);
    case Lose(_, _) => FinishKeeps(st, known, e, t, u, etag, body);
    case Merge(x) =>
      MergedAreKnown(st, known, x);
      MergeKeeps(st.cache, st.disk, known, st.tasks[x].finished, st.clock, u, etag, body);
    case PruneSave(x, stuck, written) =>
      PruneKeeps(st.cache, st.disk, known, Keep(st.tasks[x].urls), stuck, written, u, etag, body);
    case Exit(written) => SavedKeeps(st.cache, st.disk, written, u, etag, body);
    case _ =>
  }

  lemma PhaseKeptIs(p: Phase, u: Url, etag: Option<Etag>, body: Option<Text>)
    ensures PhaseKept(p, u, etag, body) ==> p.Downloading?
  {
  }

  lemma SavedKeeps(cache: Cache, disk: Disk, written: bool, u: Url, etag: Option<Etag>, body: Option<Text>)
    requires EntryKept(cache, disk, u, etag, body)
    ensures var (c, d) := Saved(cache, disk, written); EntryKept(c, d, u, etag, body)
  {
    hide UrlFile;
  }

  lemma MergedAreKnown(st: State, known: set<Url>, t: TaskId)
    requires Sound(st, known) && Enabled(st, known, Merge(t))
    ensures forall d <- st.tasks[t].finished :: d.url in known
  {
    hide UrlFile, CacheSound, PairsServed, ServedBody;
    assert PhaseSound(st.tasks[t], st.served, known);
  }

  lemma {:induction false} KeptRun(st: State, known: set<Url>, events: seq<Event>, t: TaskId, u: Url,
                                   etag: Option<Etag>, body: Option<Text>)
    requires DistinctFiles(known) && Sound(st, known) && u in known && Kept(st, t, u, etag, body)
    requires Run(st, known, events) && LeftAlone(st, known, events, t, u)
    ensures Kept(After(st, known, events), t, u, etag, body)
    decreases |events|
  {
    hide DistinctFiles, Sound, Kept, Do, Enabled, Undisturbed;
    if events == [] {
    } else {
      KeptStep(st, known, events[0], t, u, etag, body);
      SoundStep(st, known, events[0]);
      KeptRun(Do(st, known, events[0]), known, events[1..], t, u, etag, body);
    }
  }

  lemma PlanKeeps(st: State, known: set<Url>, t: TaskId, urls: seq<Url>, interval: nat, u: Url)
    requires Sound(st, known) && Enabled(st, known, Plan(t, urls, interval)) && u in known
    requires UrlFile(u) in st.disk.files ==> u in st.cache.entries
    ensures Kept(Do(st, known, Plan(t, urls, interval)), t, u, EtagOf(st.cache, u), BodyOf(st.disk, UrlFile(u)))
  {
    hide UrlFile, FreshBody, EtagsMatch, FilesServed;
    PlanDealsUrls(st.cache, st.disk, urls, interval, st.clock);
    FreshIsFile(st, known, u, interval);
  }

  lemma FreshIsFile(st: State, known: set<Url>, u: Url, interval: nat)
    requires Named(st.cache, known)
    ensures FreshBody(st.cache, st.disk, u, interval, st.clock).Some? ==>
              FreshBody(st.cache, st.disk, u, interval, st.clock) == BodyOf(st.disk, UrlFile(u))
  {
    hide UrlFile;
  }

  /**
   A build hears of a list what it asked about, if between its plan and its merge no other merge stores a new body for
   the URL, no prune drops its entry, and its own downloads bring none: the ETag its requests carry is the entry's,
   and whatever body it builds with, confirmed, stale or fresh, was delivered under that very ETag.
   */
  lemma ConfirmedIsRequested(st: State, known: set<Url>, t: TaskId, urls: seq<Url>, interval: nat,
                             events: seq<Event>, u: Url)
    requires DistinctFiles(known) && Sound(st, known) && Enabled(st, known, Plan(t, urls, interval)) && u in known
    requires UrlFile(u) in st.disk.files ==> u in st.cache.entries
    requires var planned := Do(st, known, Plan(t, urls, interval));
             && Run(planned, known, events) && LeftAlone(planned, known, events, t, u)
             && Enabled(After(planned, known, events), known, Merge(t))
             && forall d <- After(planned, known, events).tasks[t].finished :: !StoresNew(d, u)
    ensures var planned := Do(st, known, Plan(t, urls, interval));
            var bodies := Do(After(planned, known, events), known, Merge(t)).tasks[t].bodies;
            && (forall j <- planned.tasks[t].pending :: j.url == u ==> j.etag == EtagOf(st.cache, u))
            && (u in bodies ==> Origin(u, EtagOf(st.cache, u), bodies[u]) in st.served)
  {
    hide UrlFile, DistinctFiles, Sound, Run, After, LeftAlone, Do, Enabled, EntryKept;
    var planned := Do(st, known, Plan(t, urls, interval));
    var etag, body := EtagOf(st.cache, u), BodyOf(st.disk, UrlFile(u));
    PlanKeeps(st, known, t, urls, interval, u);
    SoundStep(st, known, Plan(t, urls, interval));
    KeptRun(planned, known, events, t, u, etag, body);
    EveryRunSound(planned, known, events);
    KeptBuilds(After(planned, known, events), known, t, u, etag, body);
    EntryWasServed(st, known, u);
  }

  lemma KeptBuilds(st: State, known: set<Url>, t: TaskId, u: Url, etag: Option<Etag>, body: Option<Text>)
    requires DistinctFiles(known) && Sound(st, known) && u in known && Enabled(st, known, Merge(t))
    requires Kept(st, t, u, etag, body) && forall d <- st.tasks[t].finished :: !StoresNew(d, u)
    ensures var bodies := Do(st, known, Merge(t)).tasks[t].bodies;
            u in bodies ==> Some(bodies[u]) == body
  {
    hide UrlFile, DistinctFiles, Sound, MergeAll, EntryKept, StoresNew;
    var p := st.tasks[t];
    MergedAreKnown(st, known, t);
    MergeKeeps(st.cache, st.disk, known, p.finished, st.clock, u, etag, body);
    AsMapKeys(p.current);
    AsMapKeys(MergeAll(st.cache, st.disk, p.finished, st.clock).2);
  }

  lemma EntryWasServed(st: State, known: set<Url>, u: Url)
    requires Sound(st, known) && (UrlFile(u) in st.disk.files ==> u in st.cache.entries)
    ensures var body := BodyOf(st.disk, UrlFile(u));
            body.Some? ==> Origin(u, EtagOf(st.cache, u), body.value) in st.served
  {
    hide UrlFile, FilesServed, PhaseSound;
  }

  // ----- otherwise it need not be

  /** One list, fetched as `b1` under `e1`. */
  function OneList(u: Url, e: Etag, b: Text, dirty: bool, served: set<Origin>, tasks: map<TaskId, Phase>): State {
    State(Cache(map[u := Entry(0, Some(e), UrlFile(u))], dirty), Disk(map[UrlFile(u) := b], None),
          served, 0, tasks, None)
  }

  /** Two builds ask about it; the second stores a new body before the first hears that the old one is unchanged. */
  function Overlap(i: nat, e2: Etag, b2: Text, u: Url): Event {
    match i
    case 0 => Plan(0, [u], 0)
    case 1 => Plan(1, [u], 0)
    case 2 => Finish(1, 0, Response(200, Some(e2), Some(b2)), NoResponse, true)
    case 3 => Merge(1)
    case 4 => Finish(0, 0, Response(304, None, None), NoResponse, true)
    case _ => Merge(0)
  }

  function OverlapState(i: nat, u: Url, e1: Etag, b1: Text, e2: Etag, b2: Text): State {
    var first := {Origin(u, Some(e1), b1)};
    var both := first + {Origin(u, Some(e2), b2)};
    var asking := Downloading([u], [], [Job(u, Some(e1))], [], []);
    var got := Downloading([u], [], [], [Download(u, Fresh(b2, Some(e2)), true)], []);
    var told := Downloading([u], [], [], [Download(u, NotModified, true)], []);
    var done := Merged([u], map[u := b2]);
    match i
    case 0 => OneList(u, e1, b1, false, first, map[])
    case 1 => OneList(u, e1, b1, false, first, map[0 := asking])
    case 2 => OneList(u, e1, b1, false, first, map[0 := asking, 1 := asking])
    case 3 => OneList(u, e1, b1, false, both, map[0 := asking, 1 := got])
    case 4 => OneList(u, e2, b2, true, both, map[0 := asking, 1 := done])
    case 5 => OneList(u, e2, b2, true, both, map[0 := told, 1 := done])
    case _ => OneList(u, e2, b2, true, both, map[0 := done, 1 := done])
  }

  lemma OnePlanned(cache: Cache, disk: Disk, u: Url, now: nat)
    ensures PlannedFresh(cache, disk, [u], 0, now) == []
    ensures PlannedJobs(cache, disk, [u], 0, now) == [Job(u, EtagOf(cache, u))]
  {
    assert PlannedFresh(cache, disk, [u][1..], 0, now) == [];
    assert PlannedJobs(cache, disk, [u][1..], 0, now) == [];
  }

  lemma OneMerged(cache: Cache, disk: Disk, d: Download, now: nat)
    ensures var (c, k, body) := MergeOne(cache, disk, d, now);
            MergeAll(cache, disk, [d], now) == (c, k, if body.Some? then [(d.url, body.value)] else [])
  {
    hide MergeOne;
    var (c, k, body) := MergeOne(cache, disk, d, now);
    assert MergeAll(c, k, [d][1..], now) == (c, k, []);
    var one := if body.Some? then [(d.url, body.value)] else [];
    assert one + [] == one;
  }

  lemma OneBody(u: Url, b: Text)
    ensures BuildBodies([], [(u, b)]) == map[u := b]
  {
    assert AsMap([(u, b)][1..]) == map[];
    assert AsMap([(u, b)]) == map[u := b];
    assert AsMap([]) == map[];
  }

  lemma OverlapPlans(i: nat, u: Url, e1: Etag, b1: Text, e2: Etag, b2: Text)
    requires i < 2
    ensures Enabled(OverlapState(i, u, e1, b1, e2, b2), {u}, Overlap(i, e2, b2, u))
    ensures Do(OverlapState(i, u, e1, b1, e2, b2), {u}, Overlap(i, e2, b2, u)) == OverlapState(i + 1, u, e1, b1, e2, b2)
  {
    hide UrlFile, PlannedFresh, PlannedJobs;
    var st := OverlapState(i, u, e1, b1, e2, b2);
    OnePlanned(st.cache, st.disk, u, st.clock);
  }

  lemma OverlapFinishes(i: nat, u: Url, e1: Etag, b1: Text, e2: Etag, b2: Text)
    requires i == 2 || i == 4
    ensures Enabled(OverlapState(i, u, e1, b1, e2, b2), {u}, Overlap(i, e2, b2, u))
    ensures Do(OverlapState(i, u, e1, b1, e2, b2), {u}, Overlap(i, e2, b2, u)) == OverlapState(i + 1, u, e1, b1, e2, b2)
  {
    hide UrlFile;
    var st, next := OverlapState(i, u, e1, b1, e2, b2), OverlapState(i + 1, u, e1, b1, e2, b2);
    var t := if i == 2 then 1 else 0;
    assert Without(st.tasks[t].pending, 0) == [];
    assert Do(st, {u}, Overlap(i, e2, b2, u)).tasks[t] == next.tasks[t];
  }

  lemma OverlapMerges(i: nat, u: Url, e1: Etag, b1: Text, e2: Etag, b2: Text)
    requires i == 3 || i == 5
    ensures Enabled(OverlapState(i, u, e1, b1, e2, b2), {u}, Overlap(i, e2, b2, u))
    ensures Do(OverlapState(i, u, e1, b1, e2, b2), {u}, Overlap(i, e2, b2, u)) == OverlapState(i + 1, u, e1, b1, e2, b2)
  {
    hide UrlFile, MergeAll, BuildBodies;
    var st, next := OverlapState(i, u, e1, b1, e2, b2), OverlapState(i + 1, u, e1, b1, e2, b2);
    var t := if i == 3 then 1 else 0;
    OneMerged(st.cache, st.disk, st.tasks[t].finished[0], st.clock);
    OneBody(u, b2);
    assert Do(st, {u}, Overlap(i, e2, b2, u)).cache.entries == next.cache.entries;
  }

  function OverlapRun(e2: Etag, b2: Text, u: Url): seq<Event> {
    [Overlap(0, e2, b2, u), Overlap(1, e2, b2, u), Overlap(2, e2, b2, u),
     Overlap(3, e2, b2, u), Overlap(4, e2, b2, u), Overlap(5, e2, b2, u)]
  }

  lemma {:induction false} OverlapRuns(i: nat, u: Url, e1: Etag, b1: Text, e2: Etag, b2: Text)
    requires i <= 6
    ensures Run(OverlapState(i, u, e1, b1, e2, b2), {u}, OverlapRun(e2, b2, u)[i..])
    ensures After(OverlapState(i, u, e1, b1, e2, b2), {u}, OverlapRun(e2, b2, u)[i..]) ==
            OverlapState(6, u, e1, b1, e2, b2)
    decreases 6 - i
  {
    hide Do, Enabled, OverlapState, Overlap;
    var events := OverlapRun(e2, b2, u);
    if i < 6 {
      if i < 2 {
        OverlapPlans(i, u, e1, b1, e2, b2);
      } else if i == 2 || i == 4 {
        OverlapFinishes(i, u, e1, b1, e2, b2);
      } else {
        OverlapMerges(i, u, e1, b1, e2, b2);
      }
      OverlapRuns(i + 1, u, e1, b1, e2, b2);
      assert events[i..][0] == events[i] == Overlap(i, e2, b2, u) && events[i..][1..] == events[i + 1..];
    }
  }

  /**
   Otherwise it need not be: here a build that asked with `e1` hears 304, and builds with a body that no response
   under `e1` ever carried.
   */
  lemma OverlapConfirmsAnotherBody(u: Url, e1: Etag, b1: Text, e2: Etag, b2: Text)
    requires e1 != e2 && b1 != b2
    ensures var st := OverlapState(0, u, e1, b1, e2, b2);
            && Sound(st, {u}) && Run(st, {u}, OverlapRun(e2, b2, u))
            && var last := After(st, {u}, OverlapRun(e2, b2, u));
               && last.tasks.Keys == {0, 1} && last.tasks[0] == Merged([u], map[u := b2])
               && Origin(u, Some(e1), b2) !in last.served
  {
    hide Do, Enabled, Run, After, UrlFile;
    var st := OverlapState(0, u, e1, b1, e2, b2);
    OverlapRuns(0, u, e1, b1, e2, b2);
    assert OverlapRun(e2, b2, u)[0..] == OverlapRun(e2, b2, u);
    assert Origin(u, Some(e1), b1) in st.served;
  }
}
