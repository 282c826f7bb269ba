/**
 The media index at work (src/media/mod.rs): the paged library listing, the full sync, live
 changes, and the batches in between. The library server, the embedder and the disk can fail at
 every call: what they answer is given, call by call.
 */
module MediaSync {
  import opened Common
  import opened Rows
  import I = MediaIndex
  import D = Directory
  import opened IndexFiles
  import opened Sync
  import opened LiveUpdate
  import C = SyncCrash

  const PAGE := 1000
  const BATCH := 16
  const SAVE_EVERY := 512
  const IDS_PER_CALL := 100

  /** One answer of the library: some items, and the number of all items that it names (0 if it names
      none). */
  datatype Page<T> = Page(items: seq<T>, total: nat)

  /** What the library answers to a request for the items from a position on: None if the request fails. */
  type Server<!T> = nat -> Option<Page<T>>

  /** The server answers with items of this listing, at most `PAGE` at once and any number below it. */
  ghost predicate Serves<T(!new)>(server: Server<T>, listing: seq<T>) {
    forall start: nat | start <= |listing| && server(start).Some? ::
      server(start).value.items <= listing[start..] && |server(start).value.items| <= PAGE
  }

  /** The server never fails, it names the right total, and no page is empty before the end. */
  ghost predicate ServesWell<T(!new)>(server: Server<T>, listing: seq<T>) {
    forall start: nat | start <= |listing| ::
      && server(start).Some? && server(start).value.total == |listing|
      && (server(start).value.items == [] ==> start == |listing|)
  }

  /** The items of some pages. */
  function Items<T>(pages: seq<Page<T>>): seq<T> {
    if pages == [] then [] else Items(pages[..|pages| - 1]) + pages[|pages| - 1].items
  }

  /** A listing is over with a page that is empty or names a total that is reached. */
  predicate Over<T>(pages: seq<Page<T>>) {
    pages != [] && (|pages[|pages| - 1].items| == 0 || |Items(pages)| >= pages[|pages| - 1].total)
  }

  /** The pages are the answers to requests from position 0 on, each from where the one before ended, and
      there is no request after a page that ends the listing. */
  ghost predicate Asked<T(!new)>(server: Server<T>, pages: seq<Page<T>>) {
    forall k | 0 <= k < |pages| :: server(|Items(pages[..k])|) == Some(pages[k]) && !Over(pages[..k])
  }

  /** The listing ends well with these pages. */
  ghost predicate Listed<T(!new)>(server: Server<T>, pages: seq<Page<T>>) {
    Asked(server, pages) && Over(pages)
  }

  /** The listing fails: the request behind these pages has no answer. */
  ghost predicate FailsAfter<T(!new)>(server: Server<T>, pages: seq<Page<T>>) {
    Asked(server, pages) && !Over(pages) && server(|Items(pages)|).None?
  }

  lemma AskedAt<T(!new)>(server: Server<T>, pages: seq<Page<T>>, first: seq<Page<T>>)
    requires Asked(server, pages) && |first| < |pages| && forall j | 0 <= j < |first| :: first[j] == pages[j]
    ensures server(|Items(first)|) == Some(pages[|first|]) && !Over(first)
  {
    hide Items, Over;
    assert pages[..|first|] == first;
  }

  lemma {:induction false} SamePage<T(!new)>(server: Server<T>, a: seq<Page<T>>, b: seq<Page<T>>, k: nat)
    requires Asked(server, a) && Asked(server, b) && k < |a| && k < |b|
    ensures a[k] == b[k]
  {
    hide *;
    forall j: nat | j < k
      ensures a[j] == b[j]
    {
      SamePage(server, a, b, j);
    }
    AskedAt(server, a, a[..k]);
    AskedAt(server, b, a[..k]);
  }

  lemma SamePages<T(!new)>(server: Server<T>, a: seq<Page<T>>, b: seq<Page<T>>)
    requires Asked(server, a) && Asked(server, b)
    ensures forall k: nat | k < |a| && k < |b| :: a[k] == b[k]
    ensures |a| < |b| ==> server(|Items(a)|) == Some(b[|a|]) && !Over(a)
  {
    hide *;
    forall k: nat | k < |a| && k < |b|
      ensures a[k] == b[k]
    {
      SamePage(server, a, b, k);
    }
    if |a| < |b| {
      AskedAt(server, b, a);
    }
  }

  /** A server decides what a listing gives: whether it ends well, and with which pages. */
  lemma OneListing<T(!new)>(server: Server<T>, pages: seq<Page<T>>, others: seq<Page<T>>)
    requires Listed(server, pages)
    ensures !FailsAfter(server, others) && (Listed(server, others) ==> others == pages)
  {
    hide Over, Items, Asked;
    if Asked(server, others) {
      SamePages(server, pages, others);
      SamePages(server, others, pages);
      assert |pages| == |others| ==> pages == others;
    }
  }

  lemma NoItems<T>()
    ensures Items<T>([]) == []
  {
  }

  lemma MorePages<T(!new)>(server: Server<T>, pages: seq<Page<T>>, page: Page<T>)
    requires Asked(server, pages) && !Over(pages) && server(|Items(pages)|) == Some(page)
    ensures Asked(server, pages + [page]) && Items(pages + [page]) == Items(pages) + page.items
  {
    var more := pages + [page];
    assert more[..|pages|] == pages;
    forall k | 0 <= k < |pages|
      ensures more[..k] == pages[..k]
    {
    }
  }

  /** The pages of a listing are a prefix of it. */
  lemma {:induction false} PagesArePrefix<T(!new)>(server: Server<T>, listing: seq<T>, pages: seq<Page<T>>)
    requires Serves(server, listing) && Asked(server, pages)
    ensures Items(pages) <= listing
    decreases |pages|
  {
    if pages != [] {
      hide Over;
      var n := |pages| - 1;
      FirstPages(server, pages);
      PagesArePrefix(server, listing, pages[..n]);
      PrefixJoin(listing, Items(pages[..n]), pages[n].items);
    }
  }

  lemma FirstPages<T(!new)>(server: Server<T>, pages: seq<Page<T>>)
    requires Asked(server, pages) && pages != []
    ensures var n := |pages| - 1;
            Asked(server, pages[..n]) && server(|Items(pages[..n])|) == Some(pages[n])
  {
    hide Over, Items;
    var n := |pages| - 1;
    forall k | 0 <= k < n
      ensures pages[..n][..k] == pages[..k]
    {
    }
  }

  lemma PrefixJoin<T>(s: seq<T>, a: seq<T>, b: seq<T>)
    requires a <= s && b <= s[|a|..]
    ensures a + b <= s
  {
    assert s == a + s[|a|..];
  }

  /** A server that works well gives the whole listing. */
  lemma WholeListing<T(!new)>(server: Server<T>, listing: seq<T>, pages: seq<Page<T>>)
    requires Serves(server, listing) && ServesWell(server, listing) && Asked(server, pages)
    ensures Items(pages) <= listing && server(|Items(pages)|).Some?
    ensures Over(pages) ==> Items(pages) == listing
  {
    PagesArePrefix(server, listing, pages);
    if Over(pages) {
      FirstPages(server, pages);
      hide Asked;
      var start := |Items(pages[..|pages| - 1])|;
      assert start <= |Items(pages)|;
    }
  }

  /** The listing, page by page, until a page ends it. */
  method FetchAll<T(!new)>(server: Server<T>, ghost listing: seq<T>)
    returns (r: Result<seq<T>, ()>, ghost pages: seq<Page<T>>)
    requires Serves(server, listing)
    ensures Asked(server, pages) && Items(pages) <= listing
    ensures r.Ok? ==> r.value == Items(pages) && Over(pages)
    ensures r.Err? ==> server(|Items(pages)|).None? && !Over(pages)
    ensures ServesWell(server, listing) ==> r == Ok(listing)
  {
    var all: seq<T> := [];
    pages := [];
    while true
      invariant Asked(server, pages) && all == Items(pages) <= listing && !Over(pages)
      decreases |listing| - |all|
    {
      if ServesWell(server, listing) {
        WholeListing(server, listing, pages);
      }
      var answer := server(|all|);
      if answer.None? {
        return Err(()), pages;
      }
      var Page(items, total) := answer.value;
      MorePages(server, pages, answer.value);
      pages := pages + [answer.value];
      all := all + items;
      PagesArePrefix(server, listing, pages);
      if |items| == 0 || |all| >= total {
        if ServesWell(server, listing) {
          WholeListing(server, listing, pages);
        }
        return Ok(all), pages;
      }
    }
  }

  /** The usable documents of a listing; None stands for an item without a name or of another type. */
  function DocsOf(items: seq<Option<Doc>>): seq<Doc> {
    if items == [] then []
    else DocsOf(items[..|items| - 1]) + if items[|items| - 1].Some? then [items[|items| - 1].value] else []
  }

  function Texts(docs: seq<Doc>): (t: seq<string>)
    ensures |t| == |docs| && forall i | 0 <= i < |docs| :: t[i] == docs[i].text
  {
    seq(|docs|, i requires 0 <= i < |docs| => docs[i].text)
  }

  lemma TextsSplit(docs: seq<Doc>, i: nat, j: nat)
    requires i <= j <= |docs|
    ensures Texts(docs[..i]) + Texts(docs[i..j]) == Texts(docs[..j])
  {
  }

  /** The embedding thread. */
  class Worker {
    const embedding: Embedding
    /** All texts that were sent to it. */
    ghost var sent: seq<string>

    constructor (embedding: Embedding)
      ensures this.embedding == embedding && sent == []
    {
      this.embedding := embedding;
      sent := [];
    }

    method Embed(texts: seq<string>, works: bool) returns (r: Result<seq<Vector>, ()>)
      modifies this
      ensures sent == old(sent) + texts && r.Ok? == works
      ensures r.Ok? ==> |r.value| == |texts| && forall i | 0 <= i < |texts| :: r.value[i] == embedding(texts[i])
    {
      sent := sent + texts;
      if !works {
        return Err(());
      }
      r := Ok(seq(|texts|, i requires 0 <= i < |texts| => embedding(texts[i])));
    }
  }

  /** What works while a sync or an update runs: the k-th request for documents, the k-th batch of the
      embedder, and how many operations of the k-th save. */
  datatype Weather = Weather(requests: nat -> bool, embeds: nat -> bool, saves: nat -> nat)

  /** Nothing fails. */
  ghost predicate Calm(w: Weather) {
    && (forall k: nat :: w.requests(k)) && (forall k: nat :: w.embeds(k))
    && (forall k: nat :: w.saves(k) >= OPERATIONS)
  }

  /** The library: its works and episodes (None stands for an item without a name or of another type), and
      what its server answers. */
  datatype Site = Site(
    works: seq<Option<Doc>>,
    episodes: seq<Option<Doc>>,
    serveWorks: Server<Option<Doc>>,
    serveEpisodes: Server<Option<Doc>>)
  {
    ghost predicate Valid() {
      Serves(serveWorks, works) && Serves(serveEpisodes, episodes)
    }

    /** The whole listing. */
    function All(withEpisodes: bool): seq<Option<Doc>> {
      works + if withEpisodes then episodes else []
    }

    ghost predicate ListsAll(withEpisodes: bool) {
      ServesWell(serveWorks, works) && (withEpisodes ==> ServesWell(serveEpisodes, episodes))
    }

    /** A request for the listing fails. */
    ghost predicate ListingFails(withEpisodes: bool) {
      || (exists pages :: FailsAfter(serveWorks, pages))
      || (withEpisodes && exists pages :: FailsAfter(serveEpisodes, pages))
    }

    /** The pages of works and episodes have these documents. */
    ghost predicate Lists(withEpisodes: bool, docs: seq<Doc>) {
      exists w, e ::
        && Listed(serveWorks, w) && (if withEpisodes then Listed(serveEpisodes, e) else e == [])
        && docs == DocsOf(Items(w) + Items(e))
    }

    /** A listing gives documents or fails, and the server decides which. */
    lemma ListsOne(withEpisodes: bool, docs: seq<Doc>, others: seq<Doc>)
      requires Lists(withEpisodes, docs)
      ensures !ListingFails(withEpisodes) && (Lists(withEpisodes, others) ==> others == docs)
    {
      hide Listed, FailsAfter, Items, DocsOf;
      var w, e :|
        && Listed(serveWorks, w) && (if withEpisodes then Listed(serveEpisodes, e) else e == [])
        && docs == DocsOf(Items(w) + Items(e));
      forall pages
        ensures !FailsAfter(serveWorks, pages) && (Listed(serveWorks, pages) ==> pages == w)
      {
        OneListing(serveWorks, w, pages);
      }
      forall pages | withEpisodes
        ensures !FailsAfter(serveEpisodes, pages) && (Listed(serveEpisodes, pages) ==> pages == e)
      {
        OneListing(serveEpisodes, e, pages);
      }
    }
  }

  /** The embedder works for the batches of the first `n` documents. */
  ghost predicate BatchesWork(w: Weather, n: nat) {
    forall k: nat | k * BATCH < n :: w.embeds(k)
  }

  /** The first `n` saves work. */
  ghost predicate SavesWork(w: Weather, n: nat) {
    forall k: nat | k < n :: w.saves(k) >= OPERATIONS
  }

  /** Whether the embedding of `n` documents works to the end: all their batches and saves do. For no document
      there is one save if rows were removed. */
  ghost predicate Works(w: Weather, n: nat, removed: bool) {
    if n > 0 then BatchesWork(w, n) && SavesWork(w, n / SAVE_EVERY + 1)
    else removed ==> SavesWork(w, 1)
  }

  /** Where the embedding of `n` documents stops: behind the last of `stored` documents, at the first batch that
      does not work (`sent` documents went to the embedder), or at the first save that does not. */
  ghost predicate StopPoint(w: Weather, n: nat, stored: nat, sent: nat, saves: nat) {
    && BatchesWork(w, stored) && SavesWork(w, saves) && stored <= sent <= Min(stored + BATCH, n)
    && if sent > stored then
         stored % BATCH == 0 && !w.embeds(stored / BATCH) && saves == stored / SAVE_EVERY
       else
         && w.saves(saves) < OPERATIONS && saves <= stored / SAVE_EVERY <= saves + 1
         && (if saves == stored / SAVE_EVERY then stored == n else stored % SAVE_EVERY == 0)
  }

  /** The embedding of `n` documents stops behind `stored` of them. */
  ghost predicate Stops(w: Weather, n: nat, stored: nat) {
    exists sent, saves :: StopPoint(w, n, stored, sent, saves)
  }

  lemma StopIsFailure(w: Weather, n: nat, stored: nat, sent: nat, saves: nat)
    requires StopPoint(w, n, stored, sent, saves) && n > 0
    ensures !Works(w, n, false)
  {
    if sent > stored {
      assert stored / BATCH * BATCH == stored < n;
    } else {
      assert saves < n / SAVE_EVERY + 1;
    }
  }

  lemma CalmWorks(w: Weather, n: nat, removed: bool)
    requires Calm(w)
    ensures Works(w, n, removed)
  {
  }

  lemma WorksCases(w: Weather, n: nat, removed: bool)
    ensures n > 0 ==> Works(w, n, removed) == Works(w, n, false)
    ensures n == 0 ==> Works(w, n, false) && (Works(w, n, removed) <==> (removed ==> w.saves(0) >= OPERATIONS))
  {
  }

  lemma NothingYet(w: Weather)
    ensures BatchesWork(w, 0) && SavesWork(w, 0)
  {
  }

  lemma NextSave(w: Weather, n: nat)
    requires SavesWork(w, n) && w.saves(n) >= OPERATIONS
    ensures SavesWork(w, n + 1)
  {
  }

  lemma NextBatch(w: Weather, done: nat, next: nat)
    requires BatchesWork(w, done) && done % BATCH == 0 && done < next <= done + BATCH && w.embeds(done / BATCH)
    ensures BatchesWork(w, next)
    ensures next / SAVE_EVERY ==
              done / SAVE_EVERY + if done % SAVE_EVERY + (next - done) >= SAVE_EVERY then 1 else 0
    ensures next % SAVE_EVERY ==
              if done % SAVE_EVERY + (next - done) >= SAVE_EVERY then 0 else done % SAVE_EVERY + (next - done)
  {
  }

  class Service {
    const index: I.Index
    const worker: Worker
    const dir: D.Directory<File>
    const fingerprint: string
    const episodes: bool

    ghost predicate Valid()
      reads this, index, dir
    {
      && index.Valid() && dir.Valid()
      && forall t :: |worker.embedding(t)| == index.dims
    }

    constructor (index: I.Index, worker: Worker, dir: D.Directory<File>, fingerprint: string, episodes: bool)
      requires index.Valid() && dir.Valid() && forall t :: |worker.embedding(t)| == index.dims
      ensures Valid() && this.index == index && this.worker == worker && this.dir == dir
      ensures this.fingerprint == fingerprint && this.episodes == episodes
    {
      this.index := index;
      this.worker := worker;
      this.dir := dir;
      this.fingerprint := fingerprint;
      this.episodes := episodes;
    }

    /** What a load finds on the disk now. */
    ghost function OnDisk(): Option<Saved>
      reads this, dir
    {
      LoadOf(dir.files, fingerprint, index.dims)
    }

    /** The job that keeps `base` and embeds `todo`, from the disk as it is now. */
    ghost function JobOf(base: seq<Row>, todo: seq<Doc>): C.Job
      reads this, dir
    {
      C.Job(dir.files, fingerprint, index.dims, base, todo, worker.embedding)
    }

    /** The full sync that starts here with these documents. */
    ghost function FullJob(docs: seq<Doc>): C.Job
      requires Valid()
      reads this, index, dir
    {
      JobOf(Base(index.Content(), docs), FullTodo(index.Content(), docs))
    }

    /** The live update that starts here. */
    ghost function LiveJob(removed: set<string>, docs: seq<Doc>): C.Job
      requires Valid()
      reads this, index, dir
    {
      var base := Without(index.Content(), removed);
      JobOf(base, Todo(Lookup(base), docs))
    }

    /** All states of the disk since it had `from` states are good for stages up to `k` of `job`. */
    ghost predicate GoodSince(job: C.Job, k: nat, from: nat)
      requires k <= |job.todo|
      reads this, dir
    {
      && C.Good(job, k, dir.files) && from <= |dir.states|
      && forall n | from <= n < |dir.states| :: C.Good(job, k, dir.states[n])
    }

    lemma LaterStage(job: C.Job, k: nat, next: nat, from: nat)
      requires k <= next <= |job.todo| && GoodSince(job, k, from)
      ensures GoodSince(job, next, from)
    {
      hide C.Good;
      C.LaterIsGood(job, k, next, dir.files);
      forall n | from <= n < |dir.states|
        ensures C.Good(job, next, dir.states[n])
      {
        C.LaterIsGood(job, k, next, dir.states[n]);
      }
    }

    /** Saves the index as stage `k` of `job`. */
    method SaveStage(works: nat, ghost job: C.Job, ghost k: nat, ghost from: nat) returns (r: Result<(), ()>)
      requires Valid() && k <= |job.todo| && GoodSince(job, k, from)
      requires job.fingerprint == fingerprint && job.dims == index.dims
      requires C.IsStage(job, k, Saved(index.entries, index.vectors))
      modifies dir
      ensures Valid() && GoodSince(job, k, from) && old(dir.states) <= dir.states
      ensures r.Ok? == (works >= OPERATIONS)
      ensures r.Ok? ==> OnDisk() == Some(Saved(index.entries, index.vectors))
    {
      hide C.Good, C.IsStage, LoadOf, SaveStates;
      ghost var s := Saved(index.entries, index.vectors);
      ghost var d := dir.files;
      var torn := Raw([]);
      ghost var states := SaveStates(d, HeaderFile(fingerprint, index.dims, s), VectorFile(s), torn, torn);
      ghost var steps := StepsOf(works);
      r := Save(dir, works, fingerprint, index, torn, torn);
      forall n | 0 <= n < 6
        ensures C.Good(job, k, states[n])
      {
        C.SavingIsGood(job, k, d, s, torn, torn, n);
      }
      forall n | from <= n < |dir.states|
        ensures C.Good(job, k, dir.states[n])
      {
        if n >= |old(dir.states)| {
          assert dir.states[n] == states[n - |old(dir.states)|];
        }
      }
      if steps == 0 {
        assert dir.states == old(dir.states);
      } else {
        assert dir.files == states[steps - 1];
      }
      if r.Ok? {
        SaveIsCrashSafe(d, s, fingerprint, index.dims, torn, torn, 5);
      }
    }

    /** One batch: embeds the texts and stores the rows. */
    method StoreBatch(batch: seq<Doc>, works: bool) returns (r: Result<(), ()>)
      requires Valid()
      modifies index, worker
      ensures Valid() && worker.sent == old(worker.sent) + Texts(batch) && r.Ok? == works
      ensures index.Content() ==
                if r.Ok? then Stored(old(index.Content()), batch, worker.embedding) else old(index.Content())
    {
      var vectors :- worker.Embed(Texts(batch), works);
      for i := 0 to |batch|
        invariant Valid() && worker.sent == old(worker.sent) + Texts(batch)
        invariant index.Content() == Stored(old(index.Content()), batch[..i], worker.embedding)
      {
        assert batch[..i + 1][..i] == batch[..i];
        var stored := index.UpsertRow(batch[i].entry, vectors[i]);
        assert stored.Ok?;
      }
      assert batch[..|batch|] == batch;
      return Ok(());
    }

    /** Continues with the documents from `done` to `next`. */
    method StoreRange(todo: seq<Doc>, done: nat, next: nat, works: bool, ghost base: seq<Row>)
      returns (r: Result<(), ()>)
      requires Valid() && done <= next <= |todo|
      requires index.Content() == Stored(base, todo[..done], worker.embedding)
      modifies index, worker
      ensures Valid() && worker.sent == old(worker.sent) + Texts(todo[done..next]) && r.Ok? == works
      ensures index.Content() == Stored(base, todo[..if r.Ok? then next else done], worker.embedding)
    {
      hide Stored;
      r := StoreBatch(todo[done..next], works);
      StoredSplit(base, todo, done, next, worker.embedding);
    }

    /** The disk holds the stage of the last of `saves` periodic saves, or is as it was `before`. */
    ghost predicate LastSaved(job: C.Job, saves: nat, before: Files)
      requires job.dims == index.dims && saves * SAVE_EVERY <= |job.todo|
      reads this, dir
    {
      if saves == 0 then dir.files == before
      else OnDisk().Some? && C.IsStage(job, saves * SAVE_EVERY, OnDisk().value)
    }

    /** The job has stored its first `done` documents, and every batch and periodic save worked. */
    ghost predicate Midway(job: C.Job, w: Weather, done: nat, from: nat, before: Files)
      reads this, worker, index, dir
    {
      && Valid() && job.fingerprint == fingerprint && job.dims == index.dims && job.embed == worker.embedding
      && done <= |job.todo| && (done < |job.todo| ==> done % BATCH == 0)
      && BatchesWork(w, done) && SavesWork(w, done / SAVE_EVERY)
      && GoodSince(job, done, from) && LastSaved(job, done / SAVE_EVERY, before)
      && index.Content() == C.Progress(job, done)
    }

    /** The job ended with the first batch or save that does not work. If it is a batch, the disk holds all
        but the documents since the last multiple of 512. */
    ghost predicate Stopped(job: C.Job, w: Weather, stored: nat, sent: nat, saves: nat, from: nat, before: Files)
      reads this, worker, index, dir
    {
      && Valid() && job.dims == index.dims && stored <= |job.todo|
      && GoodSince(job, stored, from) && index.Content() == C.Progress(job, stored)
      && StopPoint(w, |job.todo|, stored, sent, saves)
      && (sent > stored ==> LastSaved(job, saves, before))
    }

    /** The next batch, and a save if 512 documents are not saved. */
    method StoreNext(
        todo: seq<Doc>, done: nat, sinceSave: nat, w: Weather, ghost job: C.Job, ghost from: nat, ghost before: Files)
      returns (r: Result<nat, ()>, ghost stored: nat, ghost sent: nat, ghost saves: nat)
      requires Midway(job, w, done, from, before) && done < |todo| && todo == job.todo
      requires sinceSave == done % SAVE_EVERY
      modifies index, worker, dir
      ensures sent == Min(done + BATCH, |todo|) && worker.sent == old(worker.sent) + Texts(todo[done..sent])
      ensures r.Ok? ==> stored == sent && r.value == stored % SAVE_EVERY && Midway(job, w, stored, from, before)
      ensures r.Err? ==> Stopped(job, w, stored, sent, saves, from, before)
    {
      hide C.Good, GoodSince, LoadOf, C.IsStage, Stored, Texts, BatchesWork, SavesWork, LastSaved, Stopped;
      var next := Min(done + BATCH, |todo|);
      sent := next;
      stored := done;
      saves := done / SAVE_EVERY;
      var result := StoreRange(todo, done, next, w.embeds(done / BATCH), job.base);
      if result.Err? {
        StopsAtBatch(job, w, done, from, before);
        return Err(()), stored, sent, saves;
      }
      LaterStage(job, done, next, from);
      NextBatch(w, done, next);
      stored := next;
      var since := sinceSave + (next - done);
      hide Midway;
      if since >= SAVE_EVERY {
        StageIs(job, next);
        var saved := SaveStage(w.saves(next / SAVE_EVERY - 1), job, next, from);
        if saved.Err? {
          StopsAtSave(job, w, next, from, before);
          return Err(()), stored, sent, saves;
        }
        NextSave(w, saves);
        StageSaved(job, saves + 1, before);
        since := 0;
      }
      GoesOn(job, w, next, from, before);
      return Ok(since), stored, sent, saves;
    }

    lemma StopsAtBatch(job: C.Job, w: Weather, done: nat, from: nat, before: Files)
      requires Midway(job, w, done, from, before) && done < |job.todo| && !w.embeds(done / BATCH)
      ensures Stopped(job, w, done, Min(done + BATCH, |job.todo|), done / SAVE_EVERY, from, before)
    {
      hide C.Good, LoadOf, C.IsStage, GoodSince, BatchesWork, SavesWork, LastSaved;
    }

    lemma StopsAtSave(job: C.Job, w: Weather, next: nat, from: nat, before: Files)
      requires Valid() && job.dims == index.dims && next <= |job.todo| && GoodSince(job, next, from)
      requires index.Content() == C.Progress(job, next) && next % SAVE_EVERY == 0 && next > 0
      requires var saves := next / SAVE_EVERY - 1;
               BatchesWork(w, next) && SavesWork(w, saves) && w.saves(saves) < OPERATIONS
      ensures Stopped(job, w, next, next, next / SAVE_EVERY - 1, from, before)
    {
      hide C.Good, LoadOf, C.IsStage, GoodSince, BatchesWork, SavesWork;
    }

    lemma GoesOn(job: C.Job, w: Weather, next: nat, from: nat, before: Files)
      requires Valid() && job.fingerprint == fingerprint && job.dims == index.dims && job.embed == worker.embedding
      requires next <= |job.todo| && (next < |job.todo| ==> next % BATCH == 0)
      requires BatchesWork(w, next) && SavesWork(w, next / SAVE_EVERY)
      requires GoodSince(job, next, from) && LastSaved(job, next / SAVE_EVERY, before)
      requires index.Content() == C.Progress(job, next)
      ensures Midway(job, w, next, from, before)
    {
      hide C.Good, LoadOf, C.IsStage, GoodSince, BatchesWork, SavesWork, LastSaved;
    }

    /** Embeds documents batch by batch and stores them. `stored` tells how many are in the index, `sent`
        how many went to the embedder, and `saves` how many saves were completed. It fails exactly at the
        first batch or save that does not work. */
    method EmbedAndStore(todo: seq<Doc>, w: Weather, ghost job: C.Job, ghost from: nat)
      returns (r: Result<(), ()>, ghost stored: nat, ghost sent: nat, ghost saves: nat)
      requires Valid() && GoodSince(job, 0, from)
      requires job.fingerprint == fingerprint && job.dims == index.dims && job.embed == worker.embedding
      requires todo == job.todo && index.Content() == job.base
      modifies index, worker, dir
      ensures Valid() && stored <= |todo| && GoodSince(job, stored, from)
      ensures index.Content() == C.Progress(job, stored)
      ensures stored <= sent <= Min(stored + BATCH, |todo|) && worker.sent == old(worker.sent) + Texts(todo[..sent])
      ensures r.Err? ==> Stopped(job, w, stored, sent, saves, from, old(dir.files))
      ensures r.Ok? ==> stored == sent == |todo|
      ensures r.Ok? && todo != [] ==> OnDisk() == Some(Saved(index.entries, index.vectors))
      ensures todo == [] ==> dir.files == old(dir.files)
      ensures r.Ok? <==> Works(w, |todo|, false)
    {
      hide C.Good, GoodSince, LoadOf, C.IsStage, Stored, Texts, BatchesWork, SavesWork, LastSaved;
      NoneStored(job);
      NothingYet(w);
      NotSaved(job);
      stored := 0;
      sent := 0;
      saves := 0;
      assert todo[..0] == [];
      if todo == [] {
        return Ok(()), 0, 0, 0;
      }
      var done, sinceSave := 0, 0;
      ghost var before := dir.files;
      hide Midway, Stopped;
      Begins(job, w, from);
      while done < |todo|
        invariant done == stored == sent <= |todo| && sinceSave == done % SAVE_EVERY
        invariant Midway(job, w, done, from, before)
        invariant worker.sent == old(worker.sent) + Texts(todo[..done])
        decreases |todo| - done
      {
        ghost var first := done;
        var next := Min(done + BATCH, |todo|);
        var since;
        since, stored, sent, saves := StoreNext(todo, done, sinceSave, w, job, from, before);
        TextsSplit(todo, first, sent);
        if since.Err? {
          StopIs(job, w, stored, sent, saves, from, before);
          StopIsFailure(w, |todo|, stored, sent, saves);
          return Err(()), stored, sent, saves;
        }
        sinceSave := since.value;
        done := next;
      }
      MidwayIs(job, w, done, from, before);
      saves := done / SAVE_EVERY;
      r := SaveStage(w.saves(done / SAVE_EVERY), job, stored, from);
      if r.Ok? {
        NextSave(w, saves);
        saves := saves + 1;
      } else {
        StopsAtEnd(job, w, stored, from, before);
        StopIs(job, w, stored, sent, saves, from, before);
        StopIsFailure(w, |todo|, stored, sent, saves);
      }
    }

    lemma Begins(job: C.Job, w: Weather, from: nat)
      requires Valid() && GoodSince(job, 0, from)
      requires job.fingerprint == fingerprint && job.dims == index.dims && job.embed == worker.embedding
      requires index.Content() == job.base
      ensures Midway(job, w, 0, from, dir.files)
    {
      hide C.Good, LoadOf, C.IsStage, Stored;
      NoneStored(job);
    }

    lemma MidwayIs(job: C.Job, w: Weather, done: nat, from: nat, before: Files)
      requires Midway(job, w, done, from, before)
      ensures Valid() && done <= |job.todo| && GoodSince(job, done, from) && index.Content() == C.Progress(job, done)
      ensures C.IsStage(job, done, Saved(index.entries, index.vectors))
      ensures BatchesWork(w, done) && SavesWork(w, done / SAVE_EVERY)
    {
      hide C.Good, LoadOf, C.IsStage;
      StageIs(job, done);
    }

    lemma StopIs(job: C.Job, w: Weather, stored: nat, sent: nat, saves: nat, from: nat, before: Files)
      requires Stopped(job, w, stored, sent, saves, from, before)
      ensures Valid() && stored <= |job.todo| && GoodSince(job, stored, from)
      ensures index.Content() == C.Progress(job, stored) && StopPoint(w, |job.todo|, stored, sent, saves)
      ensures stored <= sent <= Min(stored + BATCH, |job.todo|)
    {
      hide C.Good, LoadOf, C.IsStage, GoodSince;
    }

    lemma StopsAtEnd(job: C.Job, w: Weather, stored: nat, from: nat, before: Files)
      requires Valid() && job.dims == index.dims && stored == |job.todo| && GoodSince(job, stored, from)
      requires index.Content() == C.Progress(job, stored)
      requires BatchesWork(w, stored) && SavesWork(w, stored / SAVE_EVERY) && w.saves(stored / SAVE_EVERY) < OPERATIONS
      ensures Stopped(job, w, stored, stored, stored / SAVE_EVERY, from, before)
    {
      hide C.Good, LoadOf, C.IsStage, GoodSince;
    }

    lemma NotSaved(job: C.Job)
      requires job.dims == index.dims
      ensures LastSaved(job, 0, dir.files)
    {
    }

    lemma StageSaved(job: C.Job, saves: nat, before: Files)
      requires job.dims == index.dims && 0 < saves && saves * SAVE_EVERY <= |job.todo|
      requires |index.vectors| == |index.entries| * index.dims
      requires OnDisk() == Some(Saved(index.entries, index.vectors))
      requires C.IsStage(job, saves * SAVE_EVERY, Saved(index.entries, index.vectors))
      ensures LastSaved(job, saves, before)
    {
      hide LoadOf, C.IsStage;
    }

    lemma StageIs(job: C.Job, k: nat)
      requires Valid() && job.dims == index.dims
      requires k <= |job.todo| && index.Content() == C.Progress(job, k)
      ensures C.IsStage(job, k, Saved(index.entries, index.vectors))
    {
      assert C.SavedRows(Saved(index.entries, index.vectors), job.dims) == C.Progress(job, k);
    }

    /** The ids of the index that the library does not have. */
    method GoneIds(docs: seq<Doc>) returns (gone: seq<string>)
      requires Valid()
      ensures IdSet(gone) == Gone(index.Content(), docs)
    {
      var seen := DocIds(docs);
      gone := [];
      for i := 0 to |index.entries|
        invariant forall id :: id in gone <==> id !in seen && exists k | 0 <= k < i :: index.entries[k].id == id
      {
        if index.entries[i].id !in seen {
          gone := gone + [index.entries[i].id];
        }
      }
      ghost var rows := index.Content();
      forall id
        ensures id in Gone(rows, docs) <==> id in gone
      {
        if id in gone {
          var k :| 0 <= k < |index.entries| && index.entries[k].id == id;
          assert rows[k].entry.id == id && rows[k] in rows;
        }
        if id in Gone(rows, docs) {
          var r :| r in rows && r.entry.id == id;
          var k :| 0 <= k < |rows| && rows[k] == r;
          assert index.entries[k].id == id;
        }
      }
    }

    /** Removes what the library does not have. */
    method Prune(docs: seq<Doc>) returns (removed: nat)
      requires Valid()
      modifies index
      ensures Valid() && index.Content() == Base(old(index.Content()), docs)
      ensures removed == 0 <==> index.Content() == old(index.Content())
    {
      ghost var rows := index.Content();
      index.IdsAreDistinct();
      var gone := GoneIds(docs);
      removed := index.Remove(gone);
      NothingRemoved(rows, Gone(rows, docs));
    }

    /** The documents whose hash differs from the index. */
    method SelectTodo(docs: seq<Doc>) returns (todo: seq<Doc>)
      requires Valid()
      ensures todo == Todo(Lookup(index.Content()), docs)
    {
      todo := [];
      for i := 0 to |docs|
        invariant todo == Todo(Lookup(index.Content()), docs[..i])
      {
        assert docs[..i + 1][..i] == docs[..i];
        var e := index.Get(docs[i].entry.id);
        if e.None? || e.value.hash != docs[i].entry.hash {
          todo := todo + [docs[i]];
        }
      }
      assert docs[..|docs|] == docs;
    }

    /** Fetches the works and, if they are indexed, the episodes. */
    method FetchDocs(site: Site) returns (r: Result<seq<Doc>, ()>)
      requires site.Valid()
      ensures r.Err? <==> site.ListingFails(episodes)
      ensures r.Ok? ==> site.Lists(episodes, r.value)
      ensures site.ListsAll(episodes) ==> r == Ok(DocsOf(site.All(episodes)))
    {
      hide Serves, ServesWell, Asked, Items, Over, DocsOf;
      ghost var pages;
      var fetched;
      fetched, pages := FetchAll(site.serveWorks, site.works);
      if fetched.Err? {
        assert FailsAfter(site.serveWorks, pages);
        return Err(());
      }
      assert Listed(site.serveWorks, pages);
      ghost var first := pages;
      NoItems<Option<Doc>>();
      pages := [];
      var items, more := fetched.value, [];
      if episodes {
        fetched, pages := FetchAll(site.serveEpisodes, site.episodes);
        if fetched.Err? {
          assert FailsAfter(site.serveEpisodes, pages);
          return Err(());
        }
        assert Listed(site.serveEpisodes, pages);
        more := fetched.value;
      }
      assert DocsOf(items + more) == DocsOf(Items(first) + Items(pages));
      r := Ok(DocsOf(items + more));
      site.ListsOne(episodes, r.value, r.value);
    }

    /** Compares the library with the index. `docs` is what the listing gave, the whole library if its server
        works well. None for `stored`: the listing failed. */
    method FullSync(site: Site, w: Weather)
      returns (r: Result<(), ()>, ghost docs: seq<Doc>, ghost stored: Option<nat>, ghost sent: nat)
      requires Valid() && site.Valid()
      modifies index, worker, dir
      ensures Valid()
      ensures stored.None? <==> site.ListingFails(episodes)
      ensures stored.None? ==>
                && r.Err?
                && index.Content() == old(index.Content()) && dir.states == old(dir.states)
                && worker.sent == old(worker.sent)
      ensures site.ListsAll(episodes) ==> stored.Some? && docs == DocsOf(site.All(episodes))
      ensures stored.Some? ==>
                && site.Lists(episodes, docs)
                && stored.value <= |FullTodo(old(index.Content()), docs)|
                && GoodSince(old(FullJob(docs)), stored.value, old(|dir.states|))
                && index.Content() == Synced(old(index.Content()), docs, worker.embedding, stored.value)
                && stored.value <= sent <= Min(stored.value + BATCH, |FullTodo(old(index.Content()), docs)|)
                && worker.sent == old(worker.sent) + Texts(FullTodo(old(index.Content()), docs)[..sent])
      ensures stored.Some? ==>
                var todo := FullTodo(old(index.Content()), docs);
                && (r.Ok? <==> Works(w, |todo|, Base(old(index.Content()), docs) != old(index.Content())))
                && (r.Err? && todo != [] ==> Stops(w, |todo|, stored.value))
      ensures r.Ok? ==>
                && stored == Some(|FullTodo(old(index.Content()), docs)|)
                && (index.Content() != old(index.Content()) ==> OnDisk() == Some(Saved(index.entries, index.vectors)))
      ensures r.Ok? && Consistent(docs) && Trusted(Lookup(old(index.Content())), docs, worker.embedding) ==>
                Agrees(index.Content(), docs, worker.embedding)
    {
      hide C.Good, C.IsStage, FullTodo, Synced, Todo, Base, LoadOf, Lookup, DocsOf, Consistent, Trusted, Agrees;
      hide Site.Valid, Site.ListingFails, Site.Lists, Site.ListsAll, Site.All, StopPoint, Works, Stopped, Without, Texts;
      docs := [];
      stored := None;
      sent := 0;
      index.IdsAreDistinct();
      ghost var rows := index.Content();
      ghost var from := |dir.states|;
      ghost var before := dir.files;
      var found := FetchDocs(site);
      if found.Err? {
        return Err(()), [], None, 0;
      }
      docs := found.value;
      ghost var job := FullJob(docs);
      C.JobBeginsGood(job);
      var removed := Prune(found.value);
      var todo := SelectTodo(found.value);
      TodoIsFull(rows, docs);
      WorksCases(w, |todo|, Base(rows, docs) != rows);
      ghost var n, saves;
      r, n, sent, saves := EmbedAndStore(todo, w, job, from);
      ProgressIsSynced(job, rows, docs, n);
      stored := Some(n);
      if r.Err? {
        StopIs(job, w, n, sent, saves, from, before);
        assert Stops(w, |todo|, n);
        return Err(()), docs, stored, sent;
      }
      if Consistent(docs) && Trusted(Lookup(rows), docs, worker.embedding) {
        SyncConverges(rows, docs, worker.embedding);
      }
      if removed > 0 && todo == [] {
        StageIs(job, n);
        r := SaveStage(w.saves(0), job, n, from);
      } else if todo == [] {
        NoneStored(job);
      }
    }

    /** The documents of the library for some ids: a server call for every 100 of them. */
    method FetchIds(library: seq<Doc>, ids: seq<string>, w: Weather) returns (r: Result<seq<Doc>, ()>)
      ensures r.Ok? ==> Answers(library, IdSet(ids), r.value)
      ensures r.Ok? <==> RequestsWork(w, |ids|)
    {
      var docs: seq<Doc> := [];
      var i := 0;
      while i < |ids|
        invariant i <= |ids| && (i < |ids| ==> i % IDS_PER_CALL == 0) && RequestsWork(w, i)
        invariant forall d :: d in docs <==> d in library && d.entry.id in ids[..i]
      {
        var next := Min(i + IDS_PER_CALL, |ids|);
        NextRequest(w, i, next, |ids|);
        var page :- ItemsOfIds(library, ids[i..next], w.requests(i / IDS_PER_CALL));
        assert ids[..next] == ids[..i] + ids[i..next];
        docs := docs + page;
        i := next;
      }
      assert ids[..|ids|] == ids;
      return Ok(docs);
    }

    /** Applies live changes. None for `stored`: a request failed. */
    method Apply(library: seq<Doc>, changed: seq<string>, removedIds: seq<string>, w: Weather)
      returns (r: Result<(), ()>, ghost docs: seq<Doc>, ghost stored: Option<nat>)
      requires Valid()
      modifies index, worker, dir
      ensures Valid()
      ensures stored.Some? <==> RequestsWork(w, |changed|)
      ensures stored.None? ==> r.Err? && index.Content() == old(index.Content()) && dir.states == old(dir.states)
      ensures stored.Some? ==>
                var rows := old(index.Content());
                var kept := Without(rows, IdSet(removedIds));
                var n := |Todo(Lookup(kept), docs)|;
                (r.Ok? <==> Works(w, n, kept != rows)) && (r.Err? && n > 0 ==> Stops(w, n, stored.value))
      ensures stored.Some? ==>
                && Answers(library, IdSet(changed), docs)
                && stored.value <= |old(LiveJob(IdSet(removedIds), docs)).todo|
                && GoodSince(old(LiveJob(IdSet(removedIds), docs)), stored.value, old(|dir.states|))
                && index.Content() == C.Progress(old(LiveJob(IdSet(removedIds), docs)), stored.value)
      ensures r.Ok? ==>
                && stored == Some(|old(LiveJob(IdSet(removedIds), docs)).todo|)
                && index.Content() == Applied(old(index.Content()), IdSet(removedIds), docs, worker.embedding)
                && (index.Content() != old(index.Content()) ==> OnDisk() == Some(Saved(index.entries, index.vectors)))
      ensures r.Ok? && Consistent(library) && Trusted(Lookup(old(index.Content())), library, worker.embedding) ==>
                (Agrees(index.Content(), library, worker.embedding) <==>
                 Covers(Lookup(old(index.Content())), library, IdSet(changed), IdSet(removedIds)))
    {
      hide C.Good, C.IsStage, Todo, Lookup, LoadOf, Consistent, Trusted, Agrees, Covers;
      hide Works, Stopped, StopPoint, RequestsWork, Without, Answers;
      index.IdsAreDistinct();
      docs := [];
      stored := None;
      ghost var rows := index.Content();
      var fetched := FetchIds(library, changed, w);
      if fetched.Err? {
        return Err(()), [], None;
      }
      docs := fetched.value;
      ghost var job := LiveJob(IdSet(removedIds), docs);
      ghost var from := |dir.states|;
      ghost var before := dir.files;
      C.JobBeginsGood(job);
      var removed := index.Remove(removedIds);
      NothingRemoved(rows, IdSet(removedIds));
      var todo := SelectTodo(fetched.value);
      WorksCases(w, |todo|, Without(rows, IdSet(removedIds)) != rows);
      ghost var n, sent, saves;
      r, n, sent, saves := EmbedAndStore(todo, w, job, from);
      stored := Some(n);
      if r.Err? {
        StopIs(job, w, n, sent, saves, from, before);
        assert Stops(w, |todo|, n);
        return Err(()), docs, stored;
      }
      if removed > 0 && todo == [] {
        StageIs(job, n);
        r := SaveStage(w.saves(0), job, n, from);
      } else if todo == [] {
        NoneStored(job);
      }
      assert todo[..|todo|] == todo;
      if r.Ok? && Consistent(library) && Trusted(Lookup(rows), library, worker.embedding) {
        LiveUpdateConverges(rows, library, IdSet(changed), IdSet(removedIds), docs, worker.embedding);
      }
    }
  }

  /** The requests for the first `n` ids work. */
  ghost predicate RequestsWork(w: Weather, n: nat) {
    forall k: nat | k * IDS_PER_CALL < n :: w.requests(k)
  }

  lemma NextRequest(w: Weather, i: nat, next: nat, n: nat)
    requires i % IDS_PER_CALL == 0 && i < next == Min(i + IDS_PER_CALL, n) && RequestsWork(w, i)
    ensures w.requests(i / IDS_PER_CALL) ==> RequestsWork(w, next)
    ensures !w.requests(i / IDS_PER_CALL) ==> !RequestsWork(w, n)
  {
    assert i / IDS_PER_CALL * IDS_PER_CALL == i;
  }

  /** The library answers with the documents that it has for the ids. */
  method ItemsOfIds(library: seq<Doc>, ids: seq<string>, works: bool) returns (r: Result<seq<Doc>, ()>)
    ensures r.Ok? == works
    ensures r.Ok? ==> forall d :: d in r.value <==> d in library && d.entry.id in ids
  {
    if !works {
      return Err(());
    }
    var docs: seq<Doc> := [];
    for i := 0 to |library|
      invariant forall d :: d in docs <==> d in library[..i] && d.entry.id in ids
    {
      assert library[..i + 1] == library[..i] + [library[i]];
      if library[i].entry.id in ids {
        docs := docs + [library[i]];
      }
    }
    assert library[..|library|] == library;
    return Ok(docs);
  }

  lemma NoneStored(job: C.Job)
    ensures C.Progress(job, 0) == job.base && Stored(job.base, [], job.embed) == job.base
  {
    assert job.todo[..0] == [];
  }

  lemma TodoIsFull(rows: seq<Row>, docs: seq<Doc>)
    ensures FullTodo(rows, docs) == Todo(Lookup(Base(rows, docs)), docs)
  {
  }

  lemma ProgressIsSynced(job: C.Job, rows: seq<Row>, docs: seq<Doc>, k: nat)
    requires job.base == Base(rows, docs) && job.todo == FullTodo(rows, docs) && k <= |job.todo|
    ensures C.Progress(job, k) == Synced(rows, docs, job.embed, k)
  {
  }

  lemma NothingRemoved(rows: seq<Row>, gone: set<string>)
    requires DistinctRows(rows)
    ensures |Ids(rows) * gone| == 0 <==> Without(rows, gone) == rows
  {
    RemovedCount(rows, gone);
    if Ids(rows) * gone == {} {
      NoneGone(rows, gone);
    }
  }

  lemma {:induction false} NoneGone(rows: seq<Row>, gone: set<string>)
    requires Ids(rows) * gone == {}
    ensures Without(rows, gone) == rows
    decreases |rows|
  {
    if rows != [] {
      var n := |rows| - 1;
      assert rows[n] in rows && rows[n].entry.id in Ids(rows);
      assert rows[n].entry.id !in Ids(rows) * gone;
      assert Ids(rows[..n]) <= Ids(rows);
      assert Ids(rows[..n]) * gone <= Ids(rows) * gone;
      assert rows == rows[..n] + [rows[n]];
      NoneGone(rows[..n], gone);
    }
  }

  /** The documents of some pages are documents of the library. */
  lemma ListedIsThere(site: Site, withEpisodes: bool, docs: seq<Doc>, d: Doc)
    requires site.Valid() && site.Lists(withEpisodes, docs) && d in docs
    ensures d in DocsOf(site.works + site.episodes)
  {
    hide Serves, Items, DocsOf;
    var w, e :|
      && Listed(site.serveWorks, w) && (if withEpisodes then Listed(site.serveEpisodes, e) else e == [])
      && docs == DocsOf(Items(w) + Items(e));
    PagesArePrefix(site.serveWorks, site.works, w);
    NoItems<Option<Doc>>();
    if withEpisodes {
      PagesArePrefix(site.serveEpisodes, site.episodes, e);
    }
    DocsOfPart(site.works, site.episodes, Items(w), Items(e), d);
  }

  /** A part of the listing has a part of its documents. */
  lemma DocsOfPart(works: seq<Option<Doc>>, more: seq<Option<Doc>>, w: seq<Option<Doc>>, e: seq<Option<Doc>>, d: Doc)
    requires w <= works && e <= more && d in DocsOf(w + e)
    ensures d in DocsOf(works + more)
  {
    DocsOfMembers(w + e, d);
    DocsOfMembers(works + more, d);
    assert forall x | x in w :: x in works + more;
    assert forall x | x in e :: x in works + more;
  }

  lemma {:induction false} DocsOfMembers(items: seq<Option<Doc>>, d: Doc)
    ensures d in DocsOf(items) <==> Some(d) in items
  {
    if items != [] {
      var n := |items| - 1;
      DocsOfMembers(items[..n], d);
      assert items == items[..n] + [items[n]];
    }
  }
}
