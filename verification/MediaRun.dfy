/**
 The event loop of the media index (`run` in src/media/mod.rs): full syncs on time, live changes
 collected until it is quiet. Clock, messages and library are the environment's.
 */
module MediaRun {
  import opened Common
  import opened Rows
  import opened Sync
  import opened LiveUpdate
  import opened SyncHistory
  import M = MediaSync
  import T = TornIndex

  /** In seconds. */
  const FULL_SYNC_EVERY := 6 * 3600

  datatype Changes = Changes(changed: seq<string>, removed: seq<string>) {
    predicate Empty() {
      changed == [] && removed == []
    }

    function Join(other: Changes): Changes {
      Changes(changed + other.changed, removed + other.removed)
    }
  }

  const NONE := Changes([], [])

  /** What ends a wait. Quiet: the timer. Stopped: cancelled, or the channel is closed. */
  datatype Wakeup = Message(changes: Changes) | Reconnected | Quiet | Stopped

  /** One turn of the loop: the clock before the sync, after it and at the wakeup; the listing of the library
      and its documents, with what works in a full sync and in a live update of this turn. */
  datatype Turn = Turn(
    now: nat,
    synced: nat,
    woken: nat,
    site: M.Site,
    full: M.Weather,
    library: seq<Doc>,
    live: M.Weather,
    wakeup: Wakeup)

  ghost predicate ValidSites(turns: seq<Turn>) {
    forall i | 0 <= i < |turns| :: turns[i].site.Valid()
  }

  ghost predicate ClockRuns(turns: seq<Turn>) {
    && (forall i | 0 <= i < |turns| :: turns[i].now <= turns[i].synced <= turns[i].woken)
    && (forall i | 0 < i < |turns| :: turns[i - 1].woken <= turns[i].now)
  }

  /** When the next full sync is due at the beginning of turn `i`. */
  function Due(start: nat, turns: seq<Turn>, i: nat): nat
    requires i <= |turns|
  {
    if i == 0 then start
    else
      var t, due := turns[i - 1], Due(start, turns, i - 1);
      if t.wakeup == Reconnected then t.woken
      else if t.now >= due then t.synced + FULL_SYNC_EVERY
      else due
  }

  predicate Syncs(start: nat, turns: seq<Turn>, i: nat)
    requires i < |turns|
  {
    turns[i].now >= Due(start, turns, i)
  }

  /** The changes that wait at the beginning of turn `i`. */
  function Pending(turns: seq<Turn>, i: nat): Changes
    requires i <= |turns|
  {
    if i == 0 then NONE
    else
      match turns[i - 1].wakeup
      case Message(c) => Pending(turns, i - 1).Join(c)
      case Quiet => NONE
      case _ => Pending(turns, i - 1)
  }

  /** The batches that were taken for live updates before turn `i`. */
  function Batches(turns: seq<Turn>, i: nat): seq<Changes>
    requires i <= |turns|
  {
    if i == 0 then []
    else if turns[i - 1].wakeup == Quiet && !Pending(turns, i - 1).Empty() then
      Batches(turns, i - 1) + [Pending(turns, i - 1)]
    else Batches(turns, i - 1)
  }

  function Received(turns: seq<Turn>, i: nat): Changes
    requires i <= |turns|
  {
    if i == 0 then NONE
    else if turns[i - 1].wakeup.Message? then Received(turns, i - 1).Join(turns[i - 1].wakeup.changes)
    else Received(turns, i - 1)
  }

  function Joined(batches: seq<Changes>): Changes {
    if batches == [] then NONE else Joined(batches[..|batches| - 1]).Join(batches[|batches| - 1])
  }

  lemma JoinedAppend(batches: seq<Changes>, last: Changes)
    ensures Joined(batches + [last]) == Joined(batches).Join(last)
  {
    assert (batches + [last])[..|batches|] == batches;
  }

  lemma JoinLaws(a: Changes, b: Changes, c: Changes)
    ensures a.Join(b).Join(c) == a.Join(b.Join(c)) && a.Join(NONE) == a
  {
  }

  /** One turn does not lose a change. */
  lemma {:induction false} TurnLosesNothing(turns: seq<Turn>, i: nat)
    requires 0 < i <= |turns|
    requires Joined(Batches(turns, i - 1)).Join(Pending(turns, i - 1)) == Received(turns, i - 1)
    ensures Joined(Batches(turns, i)).Join(Pending(turns, i)) == Received(turns, i)
  {
    hide Joined, Changes.Join;
    var batches, pending := Batches(turns, i - 1), Pending(turns, i - 1);
    match turns[i - 1].wakeup
    case Message(c) =>
      JoinLaws(Joined(batches), pending, c);
    case Quiet =>
      JoinedAppend(batches, pending);
      JoinLaws(Joined(batches).Join(pending), NONE, NONE);
      if pending.Empty() {
        EmptyIsNone(pending);
      }
    case _ =>
  }

  /** Every received change waits or was taken for exactly one update, in order, and no update is empty. */
  lemma {:induction false} NothingIsLost(turns: seq<Turn>, i: nat)
    requires i <= |turns|
    ensures Joined(Batches(turns, i)).Join(Pending(turns, i)) == Received(turns, i)
    ensures forall b | b in Batches(turns, i) :: !b.Empty()
  {
    if i > 0 {
      NothingIsLost(turns, i - 1);
      TurnLosesNothing(turns, i);
    }
  }

  /** A reconnect forces a full sync in the next turn, before any other update, and so does the start. */
  lemma ReconnectForcesSync(start: nat, turns: seq<Turn>, i: nat)
    requires ClockRuns(turns) && i < |turns|
    requires if i == 0 then turns[0].now >= start else turns[i - 1].wakeup == Reconnected
    ensures Syncs(start, turns, i)
  {
  }

  /** No turn begins six hours or more after the end of the last attempt without a new attempt. */
  lemma {:induction false} NeverStale(start: nat, turns: seq<Turn>, i: nat) returns (last: nat)
    requires ClockRuns(turns) && i < |turns| && turns[0].now >= start
    ensures last <= i && Syncs(start, turns, last)
    ensures last < i ==> turns[i].now < turns[last].synced + FULL_SYNC_EVERY
  {
    last := i;
    if !Syncs(start, turns, i) {
      last := DueComesFromSync(start, turns, i);
    }
  }

  lemma {:induction false} DueComesFromSync(start: nat, turns: seq<Turn>, i: nat) returns (last: nat)
    requires ClockRuns(turns) && 0 < i <= |turns| && turns[0].now >= start
    requires i < |turns| ==> !Syncs(start, turns, i)
    ensures last < i && Syncs(start, turns, last)
    ensures Due(start, turns, i) <= turns[last].synced + FULL_SYNC_EVERY
            || turns[i - 1].wakeup == Reconnected
  {
    last := i - 1;
    if !Syncs(start, turns, i - 1) {
      last := DueComesFromSync(start, turns, i - 1);
    }
  }

  lemma {:induction false} DueSince(start: nat, turns: seq<Turn>, last: nat, k: nat)
    requires ClockRuns(turns) && last < k <= |turns| && Syncs(start, turns, last)
    requires forall j | last < j < k :: !Syncs(start, turns, j)
    ensures Due(start, turns, k) ==
              if turns[k - 1].wakeup == Reconnected then turns[k - 1].woken else turns[last].synced + FULL_SYNC_EVERY
    decreases k
  {
    if k > last + 1 {
      DueSince(start, turns, last, k - 1);
      assert !Syncs(start, turns, k - 1);
      assert turns[k - 2].woken <= turns[k - 1].now;
    }
  }

  /** Exactly when a turn makes a full sync: after a reconnect, or six hours after the end of the last
      attempt. The first one is due at the start. */
  lemma SyncCondition(start: nat, turns: seq<Turn>, last: nat, i: nat)
    requires ClockRuns(turns) && last < i < |turns| && Syncs(start, turns, last)
    requires forall j | last < j < i :: !Syncs(start, turns, j)
    ensures Syncs(start, turns, i) <==>
              turns[i - 1].wakeup == Reconnected || turns[i].now >= turns[last].synced + 21_600
  {
    hide Due;
    DueSince(start, turns, last, i);
  }

  /** When it has been quiet, nothing waits any more: the batches are all that was received. */
  lemma {:induction false} QuietTakesAll(turns: seq<Turn>, i: nat)
    requires i < |turns| && turns[i].wakeup == Quiet
    ensures Pending(turns, i + 1) == NONE && Joined(Batches(turns, i + 1)) == Received(turns, i + 1)
  {
    hide Batches, Joined;
    NothingIsLost(turns, i + 1);
    JoinLaws(Joined(Batches(turns, i + 1)), NONE, NONE);
  }

  /** A batch is taken for a live update at the end of turn `i`. */
  predicate Takes(turns: seq<Turn>, i: nat)
    requires i < |turns|
  {
    turns[i].wakeup == Quiet && !Pending(turns, i).Empty()
  }

  /** A full sync or a live update of one turn: not due, refused by the library, or done. It may have
      failed on the way; `ok` tells whether it reported success. */
  datatype Part = Skipped | Refused | Did(change: Change, ok: bool)

  /** What a turn does: first a full sync, then a live update. */
  datatype Done = Done(full: Part, live: Part)

  function ChangesOf(p: Part): seq<Change> {
    if p.Did? then [p.change] else []
  }

  /** All changes of the index in their order. */
  function HistoryOf(done: seq<Done>): seq<Change> {
    if done == [] then []
    else
      var last := done[|done| - 1];
      HistoryOf(done[..|done| - 1]) + (ChangesOf(last.full) + ChangesOf(last.live))
  }

  /** The full sync of turn `i`, from the index `rows`. It is refused exactly if the listing fails, and succeeds
      exactly if the batches and saves do that it needs; a success stored all that had to be embedded. */
  ghost predicate FullPart(p: Part, start: nat, turns: seq<Turn>, i: nat, episodes: bool, rows: seq<Row>)
    requires i < |turns|
  {
    var site := turns[i].site;
    && (p.Skipped? <==> !Syncs(start, turns, i))
    && (!p.Skipped? ==> (p.Refused? <==> site.ListingFails(episodes)))
    && (!p.Skipped? && site.ListsAll(episodes) ==> p.Did? && p.change.docs == M.DocsOf(site.All(episodes)))
    && (p.Did? ==>
          && p.change.Full? && site.Lists(episodes, p.change.docs)
          && var todo := FullTodo(rows, p.change.docs);
          && (p.ok <==> M.Works(turns[i].full, |todo|, Base(rows, p.change.docs) != rows))
          && (p.ok ==> p.change.k >= |todo|)
          && (!p.ok && todo != [] ==> M.Stops(turns[i].full, |todo|, p.change.k)))
  }

  /** The live update of turn `i`, from the index `rows`. It is refused exactly if a request fails. */
  ghost predicate LivePart(p: Part, turns: seq<Turn>, i: nat, rows: seq<Row>)
    requires i < |turns|
  {
    var waiting := Pending(turns, i);
    && (p.Skipped? <==> !Takes(turns, i))
    && (!p.Skipped? ==> (p.Did? <==> M.RequestsWork(turns[i].live, |waiting.changed|)))
    && (p.Did? ==>
          && p.change.Live? && p.change.removed == IdSet(waiting.removed)
          && Answers(turns[i].library, IdSet(waiting.changed), p.change.docs)
          && var todo := LiveTodo(rows, p.change.removed, p.change.docs);
          && (p.ok <==> M.Works(turns[i].live, |todo|, Without(rows, p.change.removed) != rows))
          && (p.ok ==> p.change.k >= |todo|)
          && (!p.ok && todo != [] ==> M.Stops(turns[i].live, |todo|, p.change.k)))
  }

  /** The index before the full sync of turn `i`, and before its live update. */
  function RowsAt(rows: seq<Row>, done: seq<Done>, i: nat, embed: Embedding): seq<Row>
    requires i <= |done|
  {
    After(rows, HistoryOf(done[..i]), embed)
  }

  function RowsBetween(rows: seq<Row>, done: seq<Done>, i: nat, embed: Embedding): seq<Row>
    requires i < |done|
  {
    After(rows, HistoryOf(done[..i]) + ChangesOf(done[i].full), embed)
  }

  /** One entry for each turn: a full sync exactly in the due turns, and a live update exactly for each
      batch that is taken. */
  ghost predicate FromTurns(
      done: seq<Done>, start: nat, turns: seq<Turn>, n: nat, episodes: bool, rows: seq<Row>, embed: Embedding)
    requires n <= |turns|
  {
    && |done| == n
    && forall i | 0 <= i < n ::
         && FullPart(done[i].full, start, turns, i, episodes, RowsAt(rows, done, i, embed))
         && LivePart(done[i].live, turns, i, RowsBetween(rows, done, i, embed))
  }

  lemma HistoryAppend(done: seq<Done>, x: Done)
    ensures HistoryOf(done + [x]) == HistoryOf(done) + ChangesOf(x.full) + ChangesOf(x.live)
  {
    assert (done + [x])[..|done|] == done;
  }

  lemma MoreDone(
      done: seq<Done>, x: Done, start: nat, turns: seq<Turn>, n: nat, episodes: bool, rows: seq<Row>, embed: Embedding)
    requires n < |turns| && FromTurns(done, start, turns, n, episodes, rows, embed)
    requires FullPart(x.full, start, turns, n, episodes, After(rows, HistoryOf(done), embed))
    requires LivePart(x.live, turns, n, After(rows, HistoryOf(done) + ChangesOf(x.full), embed))
    ensures FromTurns(done + [x], start, turns, n + 1, episodes, rows, embed)
  {
    hide FullPart, LivePart, After, HistoryOf, ChangesOf;
    forall i | 0 <= i <= n
      ensures (done + [x])[..i] == done[..i]
    {
    }
    assert done[..n] == done;
  }

  class EventLoop {
    const service: M.Service
    var pending: Changes
    var nextFull: nat
    /** The batches taken for live updates. */
    ghost var taken: seq<Changes>
    /** What each turn did. */
    ghost var done: seq<Done>

    constructor (service: M.Service, now: nat)
      ensures this.service == service && pending == NONE && nextFull == now
      ensures taken == [] && done == []
    {
      this.service := service;
      pending := NONE;
      nextFull := now;
      taken := [];
      done := [];
    }

    ghost predicate At(start: nat, turns: seq<Turn>, n: nat, rows: seq<Row>)
      requires n <= |turns|
      reads this, service, service.index, service.dir
    {
      && service.Valid()
      && pending == Pending(turns, n) && nextFull == Due(start, turns, n)
      && taken == Batches(turns, n)
      && FromTurns(done, start, turns, n, service.episodes, rows, service.worker.embedding)
      && service.index.Content() == After(rows, HistoryOf(done), service.worker.embedding)
    }

    /** The full sync of a turn, if it is due. */
    method SyncIfDue(ghost start: nat, turns: seq<Turn>, n: nat, ghost rows: seq<Row>, ghost history: seq<Change>)
      returns (ghost part: Part)
      requires n < |turns| && service.Valid() && turns[n].site.Valid() && nextFull == Due(start, turns, n)
      requires service.index.Content() == After(rows, history, service.worker.embedding)
      modifies this`nextFull, service.index, service.worker, service.dir
      ensures service.Valid()
      ensures nextFull == if Syncs(start, turns, n) then turns[n].synced + FULL_SYNC_EVERY else Due(start, turns, n)
      ensures FullPart(part, start, turns, n, service.episodes, After(rows, history, service.worker.embedding))
      ensures service.index.Content() == After(rows, history + ChangesOf(part), service.worker.embedding)
    {
      hide Due, M.DocsOf, After, Step, Synced, FullTodo, M.Service.GoodSince, M.Service.OnDisk, M.Service.Valid;
      hide M.Works, M.Stops, Base, M.Site.Valid, M.Site.Lists, M.Site.ListsAll, M.Site.ListingFails, M.Site.All;
      part := Skipped;
      assert history + [] == history;
      if turns[n].now >= nextFull {
        ghost var before := After(rows, history, service.worker.embedding);
        var r;
        ghost var docs, stored, sent;
        r, docs, stored, sent := service.FullSync(turns[n].site, turns[n].full);
        part := Refused;
        if stored.Some? {
          part := Did(Full(docs, stored.value), r.Ok?);
          AfterAppend(rows, history, part.change, service.worker.embedding);
          StepIsSynced(before, docs, stored.value, service.worker.embedding);
        }
        nextFull := turns[n].synced + FULL_SYNC_EVERY;
      }
    }

    /** The live update at the end of a turn. A failed one loses its changes; the next full sync finds
        them again. */
    method TakePending(turns: seq<Turn>, n: nat, ghost rows: seq<Row>, ghost history: seq<Change>)
      returns (ghost part: Part)
      requires n < |turns| && Takes(turns, n)
      requires service.Valid() && pending == Pending(turns, n)
      requires service.index.Content() == After(rows, history, service.worker.embedding)
      modifies this`pending, this`taken, service.index, service.worker, service.dir
      ensures service.Valid() && pending == NONE && taken == old(taken) + [old(pending)]
      ensures LivePart(part, turns, n, After(rows, history, service.worker.embedding))
      ensures service.index.Content() == After(rows, history + ChangesOf(part), service.worker.embedding)
    {
      hide Pending, Batches, After, M.Works, M.Stops, M.RequestsWork, Todo, Without, Lookup, M.Service.GoodSince;
      hide M.Service.OnDisk, M.Service.Valid, Agrees, Covers;
      var changes := pending;
      pending := NONE;
      taken := taken + [changes];
      part := Refused;
      assert history + [] == history;
      var r;
      ghost var docs, stored;
      r, docs, stored := service.Apply(turns[n].library, changes.changed, changes.removed, turns[n].live);
      if stored.Some? {
        part := Did(Live(IdSet(changes.removed), docs, stored.value), r.Ok?);
        AfterAppend(rows, history, part.change, service.worker.embedding);
      }
    }

    /** How a turn ends. */
    method Wake(turns: seq<Turn>, n: nat, ghost rows: seq<Row>, ghost history: seq<Change>)
      returns (ghost part: Part)
      requires n < |turns| && service.Valid() && pending == Pending(turns, n) && taken == Batches(turns, n)
      requires service.index.Content() == After(rows, history, service.worker.embedding)
      modifies this`pending, this`nextFull, this`taken, service.index, service.worker, service.dir
      ensures service.Valid() && pending == Pending(turns, n + 1) && taken == Batches(turns, n + 1)
      ensures nextFull == if turns[n].wakeup == Reconnected then turns[n].woken else old(nextFull)
      ensures LivePart(part, turns, n, After(rows, history, service.worker.embedding))
      ensures service.index.Content() == After(rows, history + ChangesOf(part), service.worker.embedding)
    {
      hide After, M.Service.Valid, Changes.Empty, Changes.Join;
      part := Skipped;
      assert history + [] == history;
      match turns[n].wakeup
      case Message(c) => pending := pending.Join(c);
      case Reconnected => nextFull := turns[n].woken;
      case Quiet =>
        if !pending.Empty() {
          part := TakePending(turns, n, rows, history);
        } else {
          EmptyIsNone(pending);
        }
      case Stopped =>
    }

    /** One turn of the loop. */
    method MakeTurn(ghost start: nat, turns: seq<Turn>, n: nat, ghost rows: seq<Row>)
      requires n < |turns| && At(start, turns, n, rows) && ValidSites(turns)
      modifies this, service.index, service.worker, service.dir
      ensures At(start, turns, n + 1, rows)
    {
      hide FromTurns, FullPart, LivePart, After, HistoryOf, ChangesOf, Pending, Batches, M.Service.Valid;
      ghost var full := SyncIfDue(start, turns, n, rows, HistoryOf(done));
      ghost var live := Wake(turns, n, rows, HistoryOf(done) + ChangesOf(full));
      MoreDone(done, Done(full, live), start, turns, n, service.episodes, rows, service.worker.embedding);
      HistoryAppend(done, Done(full, live));
      done := done + [Done(full, live)];
    }

    /** Turn after turn, until one of them is the last. */
    method MakeTurns(ghost start: nat, turns: seq<Turn>, ghost rows: seq<Row>) returns (n: nat)
      requires At(start, turns, 0, rows) && ValidSites(turns)
      modifies this, service.index, service.worker, service.dir
      ensures n <= |turns| && (forall i | 0 <= i < n - 1 :: turns[i].wakeup != Stopped)
      ensures n == |turns| || (n > 0 && turns[n - 1].wakeup == Stopped)
      ensures At(start, turns, n, rows)
    {
      hide *;
      n := 0;
      while n < |turns|
        invariant n <= |turns| && forall i | 0 <= i < n :: turns[i].wakeup != Stopped
        invariant At(start, turns, n, rows)
      {
        MakeTurn(start, turns, n, rows);
        n := n + 1;
        if turns[n - 1].wakeup == Stopped {
          return;
        }
      }
    }

    /** Runs until it is stopped or the turns end; `n` tells how many turns it made. */
    method Run(ghost start: nat, turns: seq<Turn>) returns (n: nat)
      requires service.Valid() && pending == NONE && nextFull == start && taken == [] && done == []
      requires ValidSites(turns)
      modifies this, service.index, service.worker, service.dir
      ensures n <= |turns| && (forall i | 0 <= i < n - 1 :: turns[i].wakeup != Stopped)
      ensures n == |turns| || (n > 0 && turns[n - 1].wakeup == Stopped)
      ensures At(start, turns, n, old(service.index.Content()))
    {
      hide At;
      ghost var rows := service.index.Content();
      AtStart(start, turns, rows);
      n := MakeTurns(start, turns, rows);
    }

    lemma AtStart(start: nat, turns: seq<Turn>, rows: seq<Row>)
      requires service.Valid() && pending == NONE && nextFull == start && taken == [] && done == []
      requires rows == service.index.Content()
      ensures At(start, turns, 0, rows)
    {
    }
  }

  lemma EmptyIsNone(c: Changes)
    requires c.Empty()
    ensures c == NONE
  {
  }

  // What a run leaves in the index

  /** Every document that the library listed or returned in some turn has a text in play and its hash; a
      server lists what its library has. */
  ghost predicate TurnsHashed(turns: seq<Turn>, texts: set<string>, hash: T.Hash) {
    forall i | 0 <= i < |turns| ::
      && turns[i].site.Valid()
      && T.Hashed(M.DocsOf(turns[i].site.works + turns[i].site.episodes), texts, hash)
      && T.Hashed(turns[i].library, texts, hash)
  }

  lemma ListedIsHashed(t: Turn, episodes: bool, docs: seq<Doc>, texts: set<string>, hash: T.Hash)
    requires t.site.Valid() && t.site.Lists(episodes, docs)
    requires T.Hashed(M.DocsOf(t.site.works + t.site.episodes), texts, hash)
    ensures T.Hashed(docs, texts, hash)
  {
    hide M.Site.Lists, M.Site.Valid;
    forall d | d in docs
      ensures d in M.DocsOf(t.site.works + t.site.episodes)
    {
      M.ListedIsThere(t.site, episodes, docs, d);
    }
  }

  /** What `FromTurns` says about one turn. */
  lemma TurnParts(
      rows: seq<Row>, done: seq<Done>, start: nat, turns: seq<Turn>, n: nat, i: nat, episodes: bool, embed: Embedding)
    requires i < n <= |turns| && FromTurns(done, start, turns, n, episodes, rows, embed)
    ensures |done| == n
    ensures FullPart(done[i].full, start, turns, i, episodes, RowsAt(rows, done, i, embed))
    ensures LivePart(done[i].live, turns, i, RowsBetween(rows, done, i, embed))
  {
    hide FullPart, LivePart, RowsAt, RowsBetween;
  }

  /** The documents of these changes have texts in play and their hashes. */
  ghost predicate AllHashed(changes: seq<Change>, texts: set<string>, hash: T.Hash) {
    forall i | 0 <= i < |changes| :: T.Hashed(changes[i].docs, texts, hash)
  }

  lemma HashedJoin(a: seq<Change>, b: seq<Change>, texts: set<string>, hash: T.Hash)
    requires AllHashed(a, texts, hash) && AllHashed(b, texts, hash)
    ensures AllHashed(a + b, texts, hash)
  {
    hide T.Hashed;
  }

  lemma PartsAreHashed(
      d: Done, start: nat, turns: seq<Turn>, i: nat, episodes: bool, before: seq<Row>, between: seq<Row>,
      texts: set<string>, hash: T.Hash)
    requires i < |turns| && TurnsHashed(turns, texts, hash)
    requires FullPart(d.full, start, turns, i, episodes, before) && LivePart(d.live, turns, i, between)
    ensures AllHashed(ChangesOf(d.full), texts, hash) && AllHashed(ChangesOf(d.live), texts, hash)
  {
    hide T.Hashed, M.DocsOf, M.Site.Lists, Answers, FullTodo, LiveTodo, Pending;
    if d.full.Did? {
      ListedIsHashed(turns[i], episodes, d.full.change.docs, texts, hash);
    }
    if d.live.Did? {
      AnswersAreHashed(turns[i].library, IdSet(Pending(turns, i).changed), d.live.change.docs, texts, hash);
    }
  }

  lemma HistoryUpTo(done: seq<Done>, i: nat)
    requires 0 < i <= |done|
    ensures HistoryOf(done[..i])
         == HistoryOf(done[..i - 1]) + ChangesOf(done[i - 1].full) + ChangesOf(done[i - 1].live)
  {
    assert done[..i] == done[..i - 1] + [done[i - 1]];
    HistoryAppend(done[..i - 1], done[i - 1]);
  }

  lemma NothingIsHashed(done: seq<Done>, texts: set<string>, hash: T.Hash)
    requires done == []
    ensures AllHashed(HistoryOf(done), texts, hash)
  {
  }

  lemma {:induction false} HistoryIsHashed(
      rows: seq<Row>, done: seq<Done>, start: nat, turns: seq<Turn>, n: nat, i: nat, episodes: bool,
      texts: set<string>, hash: T.Hash, embed: Embedding)
    requires i <= n <= |turns| && FromTurns(done, start, turns, n, episodes, rows, embed)
    requires TurnsHashed(turns, texts, hash)
    ensures AllHashed(HistoryOf(done[..i]), texts, hash)
    decreases i
  {
    hide T.Hashed, TurnsHashed, FullPart, LivePart, ChangesOf, RowsAt, RowsBetween, FromTurns, AllHashed, HistoryOf;
    if i == 0 {
      NothingIsHashed(done[..0], texts, hash);
    } else {
      TurnParts(rows, done, start, turns, n, i - 1, episodes, embed);
      HistoryIsHashed(rows, done, start, turns, n, i - 1, episodes, texts, hash, embed);
      PartsAreHashed(done[i - 1], start, turns, i - 1, episodes, RowsAt(rows, done, i - 1, embed),
                     RowsBetween(rows, done, i - 1, embed), texts, hash);
      HistoryUpTo(done, i);
      var before, x := HistoryOf(done[..i - 1]), done[i - 1];
      HashedJoin(before, ChangesOf(x.full), texts, hash);
      HashedJoin(before + ChangesOf(x.full), ChangesOf(x.live), texts, hash);
    }
  }

  lemma AnswersAreHashed(library: seq<Doc>, changed: set<string>, docs: seq<Doc>, texts: set<string>, hash: T.Hash)
    requires Answers(library, changed, docs) && T.Hashed(library, texts, hash)
    ensures T.Hashed(docs, texts, hash)
  {
  }

  /** In every turn of every run the index has distinct ids, and each vector is the embedding of the text that
      its hash stands for. */
  lemma {:induction false} RunIsFaithful(
      rows: seq<Row>, done: seq<Done>, start: nat, turns: seq<Turn>, n: nat, i: nat, episodes: bool,
      texts: set<string>, hash: T.Hash, embed: Embedding)
    requires i < n <= |turns| && FromTurns(done, start, turns, n, episodes, rows, embed)
    requires TurnsHashed(turns, texts, hash)
    requires DistinctRows(rows) && T.Faithful(rows, texts, hash, embed) && T.NoCollision(texts, hash)
    ensures DistinctRows(RowsAt(rows, done, i, embed)) && T.Faithful(RowsAt(rows, done, i, embed), texts, hash, embed)
    ensures DistinctRows(RowsBetween(rows, done, i, embed))
    ensures T.Faithful(RowsBetween(rows, done, i, embed), texts, hash, embed)
  {
    TurnParts(rows, done, start, turns, n, i, episodes, embed);
    hide After, T.Faithful, T.NoCollision, T.Hashed, DistinctRows, HistoryOf, ChangesOf;
    hide TurnsHashed, FromTurns, FullPart, LivePart;
    HistoryIsHashed(rows, done, start, turns, n, i, episodes, texts, hash, embed);
    PartsAreHashed(done[i], start, turns, i, episodes, RowsAt(rows, done, i, embed),
                   RowsBetween(rows, done, i, embed), texts, hash);
    var history: seq<Change>, full: seq<Change> := HistoryOf(done[..i]), ChangesOf(done[i].full);
    HashedJoin(history, full, texts, hash);
    HistoryIsFaithful(rows, history, texts, hash, embed);
    HistoryIsFaithful(rows, history + full, texts, hash, embed);
  }

  /** In every turn of every run, a full sync that reports success makes the index agree with what the library
      listed, whatever failed, was cut short or changed before. */
  lemma {:induction false} RunConverges(
      rows: seq<Row>, done: seq<Done>, start: nat, turns: seq<Turn>, n: nat, i: nat, episodes: bool,
      texts: set<string>, hash: T.Hash, embed: Embedding)
    requires i < n <= |turns| && FromTurns(done, start, turns, n, episodes, rows, embed)
    requires TurnsHashed(turns, texts, hash)
    requires DistinctRows(rows) && T.Faithful(rows, texts, hash, embed) && T.NoCollision(texts, hash)
    requires done[i].full.Did? && done[i].full.ok && DistinctDocs(done[i].full.change.docs)
    ensures Agrees(RowsBetween(rows, done, i, embed), done[i].full.change.docs, embed)
  {
    hide After, T.Faithful, T.NoCollision, T.Hashed, FullTodo, Agrees, M.DocsOf, FromTurns, M.Site.Lists, HistoryOf;
    TurnParts(rows, done, start, turns, n, i, episodes, embed);
    var docs, k := done[i].full.change.docs, done[i].full.change.k;
    HistoryIsHashed(rows, done, start, turns, n, i, episodes, texts, hash, embed);
    ListedIsHashed(turns[i], episodes, docs, texts, hash);
    CompleteSyncConverges(rows, HistoryOf(done[..i]), docs, k, texts, hash, embed);
  }

  /** In every due turn in which nothing fails, the index agrees with the whole listing afterwards. */
  lemma {:induction false} CalmTurnAgrees(
      rows: seq<Row>, done: seq<Done>, start: nat, turns: seq<Turn>, n: nat, i: nat, episodes: bool,
      texts: set<string>, hash: T.Hash, embed: Embedding)
    requires i < n <= |turns| && FromTurns(done, start, turns, n, episodes, rows, embed)
    requires TurnsHashed(turns, texts, hash)
    requires DistinctRows(rows) && T.Faithful(rows, texts, hash, embed) && T.NoCollision(texts, hash)
    requires Syncs(start, turns, i) && turns[i].site.ListsAll(episodes) && M.Calm(turns[i].full)
    requires DistinctDocs(M.DocsOf(turns[i].site.All(episodes)))
    ensures Agrees(RowsBetween(rows, done, i, embed), M.DocsOf(turns[i].site.All(episodes)), embed)
  {
    hide T.Faithful, T.NoCollision, T.Hashed, TurnsHashed, FullTodo, Agrees, M.DocsOf, FromTurns, Syncs, DistinctRows;
    hide M.Calm, M.Works, M.Site.ListsAll, M.Site.ListingFails, M.Site.Lists, M.Site.All, RowsAt, RowsBetween;
    hide DistinctDocs, Base;
    TurnParts(rows, done, start, turns, n, i, episodes, embed);
    var before, docs := RowsAt(rows, done, i, embed), M.DocsOf(turns[i].site.All(episodes));
    M.CalmWorks(turns[i].full, |FullTodo(before, docs)|, Base(before, docs) != before);
    RunConverges(rows, done, start, turns, n, i, episodes, texts, hash, embed);
  }

  lemma CalmRequests(w: M.Weather)
    requires M.Calm(w)
    ensures forall n: nat :: M.RequestsWork(w, n)
  {
  }

  /** In every turn that takes a batch and in which nothing fails, index and library agree afterwards if and
      only if the changes that were waiting cover the difference. */
  lemma {:induction false} CalmUpdateAgrees(
      rows: seq<Row>, done: seq<Done>, start: nat, turns: seq<Turn>, n: nat, i: nat, episodes: bool,
      texts: set<string>, hash: T.Hash, embed: Embedding)
    requires i < n <= |turns| && FromTurns(done, start, turns, n, episodes, rows, embed)
    requires TurnsHashed(turns, texts, hash)
    requires DistinctRows(rows) && T.Faithful(rows, texts, hash, embed) && T.NoCollision(texts, hash)
    requires Takes(turns, i) && M.Calm(turns[i].live) && Consistent(turns[i].library)
    ensures var before, waiting := RowsBetween(rows, done, i, embed), Pending(turns, i);
            Agrees(RowsAt(rows, done, i + 1, embed), turns[i].library, embed) <==>
              Covers(Lookup(before), turns[i].library, IdSet(waiting.changed), IdSet(waiting.removed))
  {
    hide T.Faithful, T.NoCollision, T.Hashed, TurnsHashed, Agrees, FromTurns, DistinctRows, Consistent, Covers, Lookup;
    hide RowsAt, RowsBetween, Pending, LiveTodo, Takes, M.Works, M.Calm;
    TurnParts(rows, done, start, turns, n, i, episodes, embed);
    forall k: nat, removed: bool
      ensures M.Works(turns[i].live, k, removed)
    {
      M.CalmWorks(turns[i].live, k, removed);
    }
    assert M.RequestsWork(turns[i].live, |Pending(turns, i).changed|) by { CalmRequests(turns[i].live); }
    RunUpdateConverges(rows, done, start, turns, n, i, episodes, texts, hash, embed);
  }

  /** In every turn of every run, a live update that reports success makes the index agree with the library if
      and only if the changes that were waiting cover the difference. */
  lemma {:induction false} RunUpdateConverges(
      rows: seq<Row>, done: seq<Done>, start: nat, turns: seq<Turn>, n: nat, i: nat, episodes: bool,
      texts: set<string>, hash: T.Hash, embed: Embedding)
    requires i < n <= |turns| && FromTurns(done, start, turns, n, episodes, rows, embed)
    requires TurnsHashed(turns, texts, hash)
    requires DistinctRows(rows) && T.Faithful(rows, texts, hash, embed) && T.NoCollision(texts, hash)
    requires done[i].live.Did? && done[i].live.ok && Consistent(turns[i].library)
    ensures var before, waiting := RowsBetween(rows, done, i, embed), Pending(turns, i);
            Agrees(RowsAt(rows, done, i + 1, embed), turns[i].library, embed) <==>
              Covers(Lookup(before), turns[i].library, IdSet(waiting.changed), IdSet(waiting.removed))
  {
    hide After, T.Faithful, T.NoCollision, T.Hashed, Todo, Agrees, Covers, M.DocsOf, FromTurns, M.Site.Lists, Lookup, Stored;
    hide Pending, HistoryOf, DistinctRows;
    RunIsFaithful(rows, done, start, turns, n, i, episodes, texts, hash, embed);
    TurnParts(rows, done, start, turns, n, i, episodes, embed);
    var before, change, library := RowsBetween(rows, done, i, embed), done[i].live.change, turns[i].library;
    T.FaithfulIsTrusted(before, library, texts, hash, embed);
    HistoryUpTo(done, i + 1);
    AfterAppend(rows, HistoryOf(done[..i]) + ChangesOf(done[i].full), change, embed);
    UpdateConverges(before, library, IdSet(Pending(turns, i).changed), change.removed, change.docs, change.k, embed);
    var todo := LiveTodo(before, change.removed, change.docs);
    assert todo[..|todo|] == todo;
  }
}
