/**
  * `updateAllUsersFeed` of `apps/admin-app/src/actions/updateAllUsersFeed.ts`:
  * scan the user table page by page, turn every scanned user into a feed
  * pointer put, and send each page's puts in batch writes of at most 25. The
  * scan's answers are a given sequence of pages; the calls made are appended to
  * the store's feed log; a batch write may throw, as the fault parameter says.
  */
module UpdateAllUsersFeed {
  import opened Wrappers
  import opened Records

  /** The DynamoDB batch-write limit the loop chunks by. */
  const BatchSize: nat := 25

  /** The filter value of the scan, as written. */
  const ProfileFilter: string := "basic_profile"

  /** One scan answer: the items and the continuation key, if any. */
  datatype Page = Page(users: seq<Item>, lastKey: Option<string>)

  /** A scan's answers: every page but the last has a continuation key. */
  predicate ScanPages(pages: seq<Page>) {
    |pages| >= 1 && forall k :: 0 <= k < |pages| ==> (pages[k].lastKey.None? <==> k == |pages| - 1)
  }

  /** `ExclusiveStartKey` of scan number k. */
  function StartKey(pages: seq<Page>, k: nat): Option<string>
    requires k < |pages|
  {
    if k == 0 then None else pages[k - 1].lastKey
  }

  /** The sort key every feed pointer of one run gets. */
  function FeedSortKey(params: Handoff): string {
    "feed_" + params.newDate + "_" + params.newChatEventId
  }

  /** `feedUpdates`: one put per scanned user, in scan order. */
  function Puts(users: seq<Item>, params: Handoff): seq<FeedPut> {
    seq(|users|, i requires 0 <= i < |users| => FeedPut(Get(users[i], "userId"), FeedSortKey(params), params.postUserId))
  }

  /** The consecutive slices of at most `BatchSize` elements. */
  function Chunks<T>(s: seq<T>): seq<seq<T>>
    decreases |s|
  {
    if s == [] then []
    else if |s| <= BatchSize then [s]
    else [s[..BatchSize]] + Chunks(s[BatchSize..])
  }

  function Flatten<T>(ss: seq<seq<T>>): seq<T> {
    if ss == [] then [] else ss[0] + Flatten(ss[1..])
  }

  function BatchEvents(chunks: seq<seq<FeedPut>>): seq<FeedEvent> {
    seq(|chunks|, i requires 0 <= i < |chunks| => BatchWrite(chunks[i]))
  }

  function PageChunks(pages: seq<Page>, k: nat, params: Handoff): seq<seq<FeedPut>>
    requires k < |pages|
  {
    Chunks(Puts(pages[k].users, params))
  }

  /** The batch writes of pages k and after, when none throws. */
  function TotalFrom(pages: seq<Page>, k: nat, params: Handoff): nat
    requires ScanPages(pages) && k < |pages|
    decreases |pages| - k
  {
    |PageChunks(pages, k, params)| + if pages[k].lastKey.None? then 0 else TotalFrom(pages, k + 1, params)
  }

  /** The batch write number `sent` and after throw from `failing` on. */
  predicate FailsWithin(failing: Option<nat>, sent: nat, count: nat) {
    failing.Some? && sent <= failing.value < sent + count
  }

  /**
    * The calls made from scan number k on, `sent` batch writes having been made
    * before, when the batch write numbered `failing` throws: the loop goes on
    * while no batch throws and the page has a continuation key.
    */
  function PagesFrom(pages: seq<Page>, k: nat, sent: nat, params: Handoff, failing: Option<nat>): seq<FeedEvent>
    requires ScanPages(pages) && k < |pages|
    decreases |pages| - k
  {
    var chunks := PageChunks(pages, k, params);
    var scan := Scan(ProfileFilter, StartKey(pages, k));
    if FailsWithin(failing, sent, |chunks|) then [scan] + BatchEvents(chunks[..failing.value - sent])
    else if pages[k].lastKey.None? then [scan] + BatchEvents(chunks)
    else [scan] + BatchEvents(chunks) + PagesFrom(pages, k + 1, sent + |chunks|, params, failing)
  }

  /** Every call of one run. */
  function FeedRun(pages: seq<Page>, params: Handoff, failing: Option<nat>): seq<FeedEvent>
    requires ScanPages(pages)
  {
    PagesFrom(pages, 0, 0, params, failing)
  }

  // ---------------------------------------------------------------------------
  // Chunking

  lemma {:induction false} ChunkSizes<T>(s: seq<T>)
    ensures forall i :: 0 <= i < |Chunks(s)| ==> 1 <= |Chunks(s)[i]| <= BatchSize
    decreases |s|
  {
    if |s| > BatchSize {
      ChunkSizes(s[BatchSize..]);
    }
  }

  /** A page of n users gives ceil(n / 25) batches. */
  lemma {:induction false} ChunkCount<T>(s: seq<T>)
    ensures |Chunks(s)| == (|s| + BatchSize - 1) / BatchSize
    decreases |s|
  {
    if |s| > BatchSize {
      ChunkCount(s[BatchSize..]);
    }
  }

  /** The batches of a page, concatenated, are the page's puts. */
  lemma {:induction false} FlattenChunks<T>(s: seq<T>)
    ensures Flatten(Chunks(s)) == s
    decreases |s|
  {
    if |s| > BatchSize {
      FlattenChunks(s[BatchSize..]);
      assert Chunks(s)[1..] == Chunks(s[BatchSize..]);
      assert s == s[..BatchSize] + s[BatchSize..];
    } else if s != [] {
      assert Chunks(s)[1..] == [];
    }
  }

  /** Batch j is the slice the loop takes at i = 25 j. */
  lemma {:induction false} ChunkAt<T>(s: seq<T>, j: nat)
    ensures j < |Chunks(s)| <==> BatchSize * j < |s|
    ensures j < |Chunks(s)| ==> Chunks(s)[j] == s[BatchSize * j..if BatchSize * j + BatchSize <= |s| then BatchSize * j + BatchSize else |s|]
    decreases j
  {
    if j > 0 && |s| > BatchSize {
      ChunkAt(s[BatchSize..], j - 1);
      assert Chunks(s) == [s[..BatchSize]] + Chunks(s[BatchSize..]);
      if j < |Chunks(s)| {
        assert Chunks(s)[j] == Chunks(s[BatchSize..])[j - 1];
      }
    }
  }

  /** One page of 53 users: batches of 25, 25 and 3. */
  lemma ChunksOf53<T>(s: seq<T>)
    requires |s| == 53
    ensures |Chunks(s)| == 3 && |Chunks(s)[0]| == 25 && |Chunks(s)[1]| == 25 && |Chunks(s)[2]| == 3
  {
    var t := s[BatchSize..];
    assert Chunks(s) == [s[..BatchSize]] + Chunks(t);
    assert Chunks(t) == [t[..BatchSize]] + Chunks(t[BatchSize..]);
    assert Chunks(t[BatchSize..]) == [t[BatchSize..]];
  }

  // ---------------------------------------------------------------------------
  // The loop

  /** The calls of scan number k, unfolded: its scan, its batch writes up to a failure, then the later pages. */
  lemma PageStep(pages: seq<Page>, k: nat, sent: nat, params: Handoff, failing: Option<nat>)
    requires ScanPages(pages) && k < |pages|
    ensures var chunks := PageChunks(pages, k, params);
      var scan := Scan(ProfileFilter, StartKey(pages, k));
      && (FailsWithin(failing, sent, |chunks|) ==> PagesFrom(pages, k, sent, params, failing) == [scan] + BatchEvents(chunks[..failing.value - sent]))
      && (!FailsWithin(failing, sent, |chunks|) && pages[k].lastKey.None? ==> PagesFrom(pages, k, sent, params, failing) == [scan] + BatchEvents(chunks))
      && (!FailsWithin(failing, sent, |chunks|) && pages[k].lastKey.Some? ==>
            k + 1 < |pages| && PagesFrom(pages, k, sent, params, failing) == [scan] + BatchEvents(chunks) + PagesFrom(pages, k + 1, sent + |chunks|, params, failing))
  {
  }

  /** The `for` loop of one page: slice `feedUpdates` by 25 and send each slice until one throws. */
  method SendBatches(store: Store, feedUpdates: seq<FeedPut>, sent: nat, failing: Option<nat>) returns (ok: bool, count: nat)
    modifies store
    ensures count == |Chunks(feedUpdates)|
    ensures ok <==> !FailsWithin(failing, sent, count)
    ensures ok ==> store.feedLog == old(store.feedLog) + BatchEvents(Chunks(feedUpdates))
    ensures !ok ==> store.feedLog == old(store.feedLog) + BatchEvents(Chunks(feedUpdates)[..failing.value - sent])
    ensures store.items == old(store.items) && store.uploads == old(store.uploads) && store.handoffs == old(store.handoffs)
  {
    ghost var chunks := Chunks(feedUpdates);
    var i := 0;
    var j := 0;
    while i < |feedUpdates|
      invariant i == BatchSize * j && j <= |chunks|
      invariant !FailsWithin(failing, sent, j)
      invariant store.feedLog == old(store.feedLog) + BatchEvents(chunks[..j])
      invariant store.items == old(store.items) && store.uploads == old(store.uploads) && store.handoffs == old(store.handoffs)
      decreases |feedUpdates| - i
    {
      ChunkAt(feedUpdates, j);
      var batch := feedUpdates[i..if i + BatchSize <= |feedUpdates| then i + BatchSize else |feedUpdates|];
      if failing == Some(sent + j) {
        ChunkCount(feedUpdates);
        ChunkCountAtLeast(feedUpdates, j);
        return false, (|feedUpdates| + BatchSize - 1) / BatchSize;
      }
      store.LogFeed(BatchWrite(batch));
      assert BatchEvents(chunks[..j + 1]) == BatchEvents(chunks[..j]) + [BatchWrite(batch)];
      i := i + BatchSize;
      j := j + 1;
    }
    ChunkAt(feedUpdates, j);
    assert chunks[..j] == chunks;
    return true, j;
  }

  lemma ChunkCountAtLeast<T>(s: seq<T>, j: nat)
    requires BatchSize * j < |s|
    ensures j < |Chunks(s)|
  {
    ChunkAt(s, j);
  }

  /** The calls one loop iteration makes for `page`: its scan, then its batch writes up to the one that throws. */
  function PageLog(page: Page, startKey: Option<string>, sent: nat, params: Handoff, failing: Option<nat>): seq<FeedEvent> {
    var chunks := Chunks(Puts(page.users, params));
    if FailsWithin(failing, sent, |chunks|) then [Scan(ProfileFilter, startKey)] + BatchEvents(chunks[..failing.value - sent])
    else [Scan(ProfileFilter, startKey)] + BatchEvents(chunks)
  }

  /** The run from scan k on ends with that iteration's calls when a batch throws or the page has no continuation key. */
  lemma PagesFromStop(pages: seq<Page>, k: nat, sent: nat, params: Handoff, failing: Option<nat>)
    requires ScanPages(pages) && k < |pages|
    requires FailsWithin(failing, sent, |PageChunks(pages, k, params)|) || pages[k].lastKey.None?
    ensures PagesFrom(pages, k, sent, params, failing) == PageLog(pages[k], StartKey(pages, k), sent, params, failing)
  {
  }

  /** Otherwise it goes on with the run from scan k + 1. */
  lemma PagesFromContinue(pages: seq<Page>, k: nat, sent: nat, params: Handoff, failing: Option<nat>)
    requires ScanPages(pages) && k < |pages|
    requires !FailsWithin(failing, sent, |PageChunks(pages, k, params)|) && pages[k].lastKey.Some?
    ensures k + 1 < |pages|
    ensures PagesFrom(pages, k, sent, params, failing)
      == PageLog(pages[k], StartKey(pages, k), sent, params, failing) + PagesFrom(pages, k + 1, sent + |PageChunks(pages, k, params)|, params, failing)
  {
  }

  /** One iteration of the do-while: the scan, then the batches of its page. */
  method ScanPage(store: Store, page: Page, startKey: Option<string>, sent: nat, params: Handoff, failing: Option<nat>)
    returns (ok: bool, count: nat)
    modifies store
    ensures count == |Chunks(Puts(page.users, params))|
    ensures ok <==> !FailsWithin(failing, sent, count)
    ensures store.feedLog == old(store.feedLog) + PageLog(page, startKey, sent, params, failing)
    ensures store.items == old(store.items) && store.uploads == old(store.uploads) && store.handoffs == old(store.handoffs)
  {
    store.LogFeed(Scan(ProfileFilter, startKey));
    var feedUpdates := Puts(page.users, params);
    ok, count := SendBatches(store, feedUpdates, sent, failing);
  }

  /** `updateAllUsersFeed`: the do-while over scan pages. */
  method Run(store: Store, pages: seq<Page>, params: Handoff, failing: Option<nat>) returns (ok: bool)
    requires ScanPages(pages)
    modifies store
    ensures store.feedLog == old(store.feedLog) + FeedRun(pages, params, failing)
    ensures ok <==> !FailsWithin(failing, 0, TotalFrom(pages, 0, params))
    ensures store.items == old(store.items) && store.uploads == old(store.uploads) && store.handoffs == old(store.handoffs)
  {
    var lastEvaluatedKey: Option<string> := None;
    var k := 0;
    var sent: nat := 0;
    ghost var emitted: seq<FeedEvent> := [];
    ghost var run := FeedRun(pages, params, failing);
    ghost var total := TotalFrom(pages, 0, params);
    while true
      invariant 0 <= k < |pages|
      invariant lastEvaluatedKey == StartKey(pages, k)
      invariant sent + TotalFrom(pages, k, params) == total
      invariant !FailsWithin(failing, 0, sent)
      invariant store.feedLog == old(store.feedLog) + emitted
      invariant emitted + PagesFrom(pages, k, sent, params, failing) == run
      invariant store.items == old(store.items) && store.uploads == old(store.uploads) && store.handoffs == old(store.handoffs)
      decreases |pages| - k
    {
      var pageOk, count := ScanPage(store, pages[k], lastEvaluatedKey, sent, params, failing);
      ghost var log := PageLog(pages[k], lastEvaluatedKey, sent, params, failing);
      lastEvaluatedKey := pages[k].lastKey;
      if !pageOk || lastEvaluatedKey.None? {
        RunStops(pages, k, sent, params, failing, emitted, run, total, count);
        AppendAssoc(old(store.feedLog), emitted, log);
        return pageOk;
      }
      RunContinues(pages, k, sent, params, failing, emitted, run, total, count);
      AppendAssoc(old(store.feedLog), emitted, log);
      emitted := emitted + log;
      sent := sent + count;
      k := k + 1;
    }
  }

  /** The loop stops after scan k: the calls made are the whole run, and the result says whether a batch threw. */
  lemma RunStops(pages: seq<Page>, k: nat, sent: nat, params: Handoff, failing: Option<nat>,
                 emitted: seq<FeedEvent>, run: seq<FeedEvent>, total: nat, count: nat)
    requires ScanPages(pages) && k < |pages|
    requires count == |PageChunks(pages, k, params)|
    requires sent + TotalFrom(pages, k, params) == total && !FailsWithin(failing, 0, sent)
    requires emitted + PagesFrom(pages, k, sent, params, failing) == run
    requires FailsWithin(failing, sent, count) || pages[k].lastKey.None?
    ensures emitted + PageLog(pages[k], StartKey(pages, k), sent, params, failing) == run
    ensures !FailsWithin(failing, sent, count) <==> !FailsWithin(failing, 0, total)
  {
    PagesFromStop(pages, k, sent, params, failing);
  }

  /** The loop goes on after scan k: the invariant holds for scan k + 1. */
  lemma RunContinues(pages: seq<Page>, k: nat, sent: nat, params: Handoff, failing: Option<nat>,
                     emitted: seq<FeedEvent>, run: seq<FeedEvent>, total: nat, count: nat)
    requires ScanPages(pages) && k < |pages|
    requires count == |PageChunks(pages, k, params)|
    requires sent + TotalFrom(pages, k, params) == total && !FailsWithin(failing, 0, sent)
    requires emitted + PagesFrom(pages, k, sent, params, failing) == run
    requires !FailsWithin(failing, sent, count) && pages[k].lastKey.Some?
    ensures k + 1 < |pages| && StartKey(pages, k + 1) == pages[k].lastKey
    ensures sent + count + TotalFrom(pages, k + 1, params) == total && !FailsWithin(failing, 0, sent + count)
    ensures emitted + PageLog(pages[k], StartKey(pages, k), sent, params, failing) + PagesFrom(pages, k + 1, sent + count, params, failing) == run
  {
    PagesFromContinue(pages, k, sent, params, failing);
    AppendAssoc(emitted, PageLog(pages[k], StartKey(pages, k), sent, params, failing), PagesFrom(pages, k + 1, sent + count, params, failing));
  }

  lemma AppendAssoc<T>(a: seq<T>, b: seq<T>, c: seq<T>)
    ensures a + (b + c) == a + b + c
  {
  }

  // ---------------------------------------------------------------------------
  // Properties of a run

  /** The put lists of the batch writes among the calls, in call order. */
  function BatchesIn(events: seq<FeedEvent>): seq<seq<FeedPut>> {
    if events == [] then []
    else (if events[0].BatchWrite? then [events[0].puts] else []) + BatchesIn(events[1..])
  }

  /** The start keys of the scans among the calls, in call order. */
  function ScanStarts(events: seq<FeedEvent>): seq<Option<string>> {
    if events == [] then []
    else (if events[0].Scan? then [events[0].startKey] else []) + ScanStarts(events[1..])
  }

  lemma {:induction false} BatchesInAppend(a: seq<FeedEvent>, b: seq<FeedEvent>)
    ensures BatchesIn(a + b) == BatchesIn(a) + BatchesIn(b)
  {
    if a != [] {
      assert (a + b)[1..] == a[1..] + b;
      BatchesInAppend(a[1..], b);
    } else {
      assert a + b == b;
    }
  }

  lemma {:induction false} ScanStartsAppend(a: seq<FeedEvent>, b: seq<FeedEvent>)
    ensures ScanStarts(a + b) == ScanStarts(a) + ScanStarts(b)
  {
    if a != [] {
      assert (a + b)[1..] == a[1..] + b;
      ScanStartsAppend(a[1..], b);
    } else {
      assert a + b == b;
    }
  }

  lemma {:induction false} BatchesInBatchEvents(chunks: seq<seq<FeedPut>>)
    ensures BatchesIn(BatchEvents(chunks)) == chunks
    ensures ScanStarts(BatchEvents(chunks)) == []
  {
    if chunks != [] {
      assert BatchEvents(chunks)[1..] == BatchEvents(chunks[1..]);
      BatchesInBatchEvents(chunks[1..]);
    }
  }

  lemma {:induction false} FlattenAppend<T>(a: seq<seq<T>>, b: seq<seq<T>>)
    ensures Flatten(a + b) == Flatten(a) + Flatten(b)
  {
    if a != [] {
      assert (a + b)[1..] == a[1..] + b;
      FlattenAppend(a[1..], b);
    } else {
      assert a + b == b;
    }
  }

  /** A batch write's puts: 1 to 25 of them, all with the run's sort key and the post owner as friend. */
  predicate GoodBatch(puts: seq<FeedPut>, params: Handoff) {
    && 1 <= |puts| <= BatchSize
    && forall p :: p in puts ==> p.primarySK == FeedSortKey(params) && p.friendId == params.postUserId
  }

  predicate GoodBatches(events: seq<FeedEvent>, params: Handoff) {
    forall i :: 0 <= i < |events| && events[i].BatchWrite? ==> GoodBatch(events[i].puts, params)
  }

  lemma GoodBatchesAppend(a: seq<FeedEvent>, b: seq<FeedEvent>, params: Handoff)
    requires GoodBatches(a, params) && GoodBatches(b, params)
    ensures GoodBatches(a + b, params)
  {
    forall i | 0 <= i < |a + b| && (a + b)[i].BatchWrite? ensures GoodBatch((a + b)[i].puts, params) {
      if i >= |a| {
        assert (a + b)[i] == b[i - |a|];
      }
    }
  }

  lemma PageBatchesGood(pages: seq<Page>, k: nat, params: Handoff, n: nat)
    requires k < |pages| && n <= |PageChunks(pages, k, params)|
    ensures GoodBatches([Scan(ProfileFilter, StartKey(pages, k))] + BatchEvents(PageChunks(pages, k, params)[..n]), params)
  {
    var puts := Puts(pages[k].users, params);
    var chunks := PageChunks(pages, k, params);
    ChunkSizes(puts);
    forall c | c in chunks ensures GoodBatch(c, params) {
      ChunkElements(puts, c);
    }
    var events := [Scan(ProfileFilter, StartKey(pages, k))] + BatchEvents(chunks[..n]);
    forall i | 0 <= i < |events| && events[i].BatchWrite? ensures GoodBatch(events[i].puts, params) {
      assert events[i] == BatchWrite(chunks[i - 1]);
    }
  }

  /** Every batch write of a run carries 1 to 25 puts, all with the run's sort key and the post owner as friend. */
  lemma {:induction false} BatchesWellFormed(pages: seq<Page>, k: nat, sent: nat, params: Handoff, failing: Option<nat>)
    requires ScanPages(pages) && k < |pages|
    ensures GoodBatches(PagesFrom(pages, k, sent, params, failing), params)
    decreases |pages| - k
  {
    var chunks := PageChunks(pages, k, params);
    PageStep(pages, k, sent, params, failing);
    if FailsWithin(failing, sent, |chunks|) {
      PageBatchesGood(pages, k, params, failing.value - sent);
    } else {
      PageBatchesGood(pages, k, params, |chunks|);
      assert chunks[..|chunks|] == chunks;
      if pages[k].lastKey.Some? {
        BatchesWellFormed(pages, k + 1, sent + |chunks|, params, failing);
        GoodBatchesAppend([Scan(ProfileFilter, StartKey(pages, k))] + BatchEvents(chunks), PagesFrom(pages, k + 1, sent + |chunks|, params, failing), params);
      }
    }
  }

  lemma {:induction false} ChunkElements<T>(s: seq<T>, c: seq<T>)
    requires c in Chunks(s)
    ensures forall x :: x in c ==> x in s
    decreases |s|
  {
    if |s| > BatchSize && c != s[..BatchSize] {
      ChunkElements(s[BatchSize..], c);
    }
  }

  /** The users of pages k and after, in scan order. */
  function UsersFrom(pages: seq<Page>, k: nat): seq<Item>
    requires k <= |pages|
    decreases |pages| - k
  {
    if k == |pages| then [] else pages[k].users + UsersFrom(pages, k + 1)
  }

  lemma PutsAppend(a: seq<Item>, b: seq<Item>, params: Handoff)
    ensures Puts(a + b, params) == Puts(a, params) + Puts(b, params)
  {
  }

  /** Without a failure, the batches in call order hold exactly one put per scanned user, in scan order. */
  lemma {:induction false} CompleteRunPuts(pages: seq<Page>, k: nat, sent: nat, params: Handoff)
    requires ScanPages(pages) && k < |pages|
    ensures Flatten(BatchesIn(PagesFrom(pages, k, sent, params, None))) == Puts(UsersFrom(pages, k), params)
    decreases |pages| - k
  {
    var chunks := PageChunks(pages, k, params);
    var head := [Scan(ProfileFilter, StartKey(pages, k))] + BatchEvents(chunks);
    HeadPuts(pages, k, params);
    if pages[k].lastKey.None? {
      assert PagesFrom(pages, k, sent, params, None) == head;
      assert UsersFrom(pages, k) == pages[k].users + [] by {
        assert k == |pages| - 1;
      }
    } else {
      var rest := PagesFrom(pages, k + 1, sent + |chunks|, params, None);
      assert PagesFrom(pages, k, sent, params, None) == head + rest by {
        PageStep(pages, k, sent, params, None);
      }
      CompleteRunPuts(pages, k + 1, sent + |chunks|, params);
      FlattenBatchesInAppend(head, rest);
      PutsAppend(pages[k].users, UsersFrom(pages, k + 1), params);
    }
  }

  /** The batch writes of one page, concatenated, are that page's puts. */
  lemma HeadPuts(pages: seq<Page>, k: nat, params: Handoff)
    requires k < |pages|
    ensures Flatten(BatchesIn([Scan(ProfileFilter, StartKey(pages, k))] + BatchEvents(PageChunks(pages, k, params)))) == Puts(pages[k].users, params)
  {
    var scan := Scan(ProfileFilter, StartKey(pages, k));
    var chunks := PageChunks(pages, k, params);
    BatchesInAppend([scan], BatchEvents(chunks));
    BatchesInBatchEvents(chunks);
    assert BatchesIn([scan]) == [];
    assert BatchesIn([scan] + BatchEvents(chunks)) == chunks;
    FlattenChunks(Puts(pages[k].users, params));
  }

  lemma FlattenBatchesInAppend(a: seq<FeedEvent>, b: seq<FeedEvent>)
    ensures Flatten(BatchesIn(a + b)) == Flatten(BatchesIn(a)) + Flatten(BatchesIn(b))
  {
    BatchesInAppend(a, b);
    FlattenAppend(BatchesIn(a), BatchesIn(b));
  }


  /** Without a failure there is one scan per page, the first from no key and each later one from the previous page's continuation key. */
  lemma {:induction false} CompleteRunScans(pages: seq<Page>, k: nat, sent: nat, params: Handoff)
    requires ScanPages(pages) && k < |pages|
    ensures var starts := ScanStarts(PagesFrom(pages, k, sent, params, None));
      |starts| == |pages| - k && forall i :: 0 <= i < |starts| ==> starts[i] == StartKey(pages, k + i)
    decreases |pages| - k
  {
    var chunks := PageChunks(pages, k, params);
    var scan := Scan(ProfileFilter, StartKey(pages, k));
    var head := [scan] + BatchEvents(chunks);
    PageStep(pages, k, sent, params, None);
    ScanStartsAppend([scan], BatchEvents(chunks));
    BatchesInBatchEvents(chunks);
    assert ScanStarts([scan]) == [StartKey(pages, k)];
    assert ScanStarts(head) == [StartKey(pages, k)];
    if pages[k].lastKey.Some? {
      var rest := PagesFrom(pages, k + 1, sent + |chunks|, params, None);
      CompleteRunScans(pages, k + 1, sent + |chunks|, params);
      ScanStartsAppend(head, rest);
    }
  }

  /** Within one page: the calls up to batch n are a proper prefix of the page's calls, and batch n comes next. */
  lemma CutInPage(scan: FeedEvent, chunks: seq<seq<FeedPut>>, n: nat, after: seq<FeedEvent>)
    requires scan.Scan? && n < |chunks|
    ensures var cut, full := [scan] + BatchEvents(chunks[..n]), [scan] + BatchEvents(chunks) + after;
      |cut| < |full| && cut == full[..|cut|] && full[|cut|] == BatchWrite(chunks[n]) && |BatchesIn(cut)| == n
  {
    var cut, full := [scan] + BatchEvents(chunks[..n]), [scan] + BatchEvents(chunks) + after;
    assert full[..|cut|] == cut;
    BatchesInBatchEvents(chunks[..n]);
    BatchesInAppend([scan], BatchEvents(chunks[..n]));
    assert BatchesIn([scan]) == [];
  }

  /** Putting the same calls in front keeps a proper prefix a proper prefix, with the same next call. */
  lemma CutAfterHead(head: seq<FeedEvent>, rest: seq<FeedEvent>, fullRest: seq<FeedEvent>)
    requires |rest| < |fullRest| && rest == fullRest[..|rest|]
    ensures |head + rest| < |head + fullRest| && head + rest == (head + fullRest)[..|head + rest|]
    ensures (head + fullRest)[|head + rest|] == fullRest[|rest|]
    ensures |BatchesIn(head + rest)| == |BatchesIn(head)| + |BatchesIn(rest)|
  {
    BatchesInAppend(head, rest);
  }

  /**
    * When batch write number f throws, the run so far is the failure-free run
    * cut just before that batch write: f batches were written and no later
    * batch or scan is made.
    */
  lemma {:induction false} FailureTruncates(pages: seq<Page>, k: nat, sent: nat, params: Handoff, f: nat)
    requires ScanPages(pages) && k < |pages|
    requires sent <= f < sent + TotalFrom(pages, k, params)
    ensures var cut, full := PagesFrom(pages, k, sent, params, Some(f)), PagesFrom(pages, k, sent, params, None);
      && |cut| < |full| && cut == full[..|cut|] && full[|cut|].BatchWrite?
      && |BatchesIn(cut)| == f - sent
    decreases |pages| - k, 1
  {
    var n := |PageChunks(pages, k, params)|;
    if FailsWithin(Some(f), sent, n) {
      FailureInPage(pages, k, sent, params, f);
    } else {
      assert pages[k].lastKey.Some? && k + 1 < |pages|;
      FailureInLaterPage(pages, k, sent, params, f);
    }
  }

  /** `cut` is a proper prefix of `full` holding n batch writes, and a batch write comes next in `full`. */
  predicate Truncated(cut: seq<FeedEvent>, full: seq<FeedEvent>, n: nat) {
    |cut| < |full| && cut == full[..|cut|] && full[|cut|].BatchWrite? && |BatchesIn(cut)| == n
  }

  /** The failing batch write belongs to scan k's page. */
  lemma FailureInPage(pages: seq<Page>, k: nat, sent: nat, params: Handoff, f: nat)
    requires ScanPages(pages) && k < |pages|
    requires FailsWithin(Some(f), sent, |PageChunks(pages, k, params)|)
    ensures Truncated(PagesFrom(pages, k, sent, params, Some(f)), PagesFrom(pages, k, sent, params, None), f - sent)
  {
    var chunks := PageChunks(pages, k, params);
    var scan := Scan(ProfileFilter, StartKey(pages, k));
    var head := [scan] + BatchEvents(chunks);
    PagesFromStop(pages, k, sent, params, Some(f));
    if pages[k].lastKey.None? {
      PagesFromStop(pages, k, sent, params, None);
      CutInPage(scan, chunks, f - sent, []);
      assert head + [] == head;
    } else {
      PagesFromContinue(pages, k, sent, params, None);
      CutInPage(scan, chunks, f - sent, PagesFrom(pages, k + 1, sent + |chunks|, params, None));
    }
  }

  /** The failing batch write belongs to a later page: the run is scan k's calls followed by the cut of the rest. */
  lemma FailureInLaterPage(pages: seq<Page>, k: nat, sent: nat, params: Handoff, f: nat)
    requires ScanPages(pages) && k < |pages|
    requires pages[k].lastKey.Some? && k + 1 < |pages|
    requires sent + |PageChunks(pages, k, params)| <= f < sent + |PageChunks(pages, k, params)| + TotalFrom(pages, k + 1, params)
    ensures Truncated(PagesFrom(pages, k, sent, params, Some(f)), PagesFrom(pages, k, sent, params, None), f - sent)
    decreases |pages| - k, 0
  {
    var chunks := PageChunks(pages, k, params);
    var scan := Scan(ProfileFilter, StartKey(pages, k));
    var head := [scan] + BatchEvents(chunks);
    var cutRest := PagesFrom(pages, k + 1, sent + |chunks|, params, Some(f));
    var fullRest := PagesFrom(pages, k + 1, sent + |chunks|, params, None);
    assert PagesFrom(pages, k, sent, params, Some(f)) == head + cutRest by {
      PageStep(pages, k, sent, params, Some(f));
    }
    assert PagesFrom(pages, k, sent, params, None) == head + fullRest by {
      PageStep(pages, k, sent, params, None);
    }
    assert Truncated(cutRest, fullRest, f - (sent + |chunks|)) by {
      FailureTruncates(pages, k + 1, sent + |chunks|, params, f);
    }
    HeadHasPageBatches(scan, chunks);
    TruncatedAfterHead(head, cutRest, fullRest, f - (sent + |chunks|));
  }

  /** A truncation stays one when the same events are put in front of both runs. */
  lemma TruncatedAfterHead(head: seq<FeedEvent>, cut: seq<FeedEvent>, full: seq<FeedEvent>, n: nat)
    requires Truncated(cut, full, n)
    ensures Truncated(head + cut, head + full, |BatchesIn(head)| + n)
  {
    CutAfterHead(head, cut, full);
  }

  lemma HeadHasPageBatches(scan: FeedEvent, chunks: seq<seq<FeedPut>>)
    requires scan.Scan?
    ensures |BatchesIn([scan] + BatchEvents(chunks))| == |chunks|
  {
    BatchesInAppend([scan], BatchEvents(chunks));
    BatchesInBatchEvents(chunks);
    assert BatchesIn([scan]) == [];
  }

  /** A failure numbered past the last batch write changes nothing. */
  lemma {:induction false} LateFailureHarmless(pages: seq<Page>, k: nat, sent: nat, params: Handoff, f: nat)
    requires ScanPages(pages) && k < |pages|
    requires f < sent || sent + TotalFrom(pages, k, params) <= f
    ensures PagesFrom(pages, k, sent, params, Some(f)) == PagesFrom(pages, k, sent, params, None)
    decreases |pages| - k
  {
    if !pages[k].lastKey.None? {
      LateFailureHarmless(pages, k + 1, sent + |PageChunks(pages, k, params)|, params, f);
    }
  }

  predicate ScansFiltered(events: seq<FeedEvent>) {
    forall i :: 0 <= i < |events| && events[i].Scan? ==> events[i].filterValue == "basic_profile"
  }

  lemma ScansFilteredAppend(a: seq<FeedEvent>, b: seq<FeedEvent>)
    requires ScansFiltered(a) && ScansFiltered(b)
    ensures ScansFiltered(a + b)
  {
    forall i | 0 <= i < |a + b| && (a + b)[i].Scan? ensures (a + b)[i].filterValue == "basic_profile" {
      if i >= |a| {
        assert (a + b)[i] == b[i - |a|];
      }
    }
  }

  /** Every scan filters on `"basic_profile"`, which is not the `"profile_basic"` sort key the profile reads use. */
  lemma {:induction false} ScansUseWrittenFilter(pages: seq<Page>, k: nat, sent: nat, params: Handoff, failing: Option<nat>)
    requires ScanPages(pages) && k < |pages|
    ensures ScansFiltered(PagesFrom(pages, k, sent, params, failing))
    ensures ProfileFilter != "profile_basic"
    decreases |pages| - k
  {
    var chunks := PageChunks(pages, k, params);
    PageStep(pages, k, sent, params, failing);
    if !FailsWithin(failing, sent, |chunks|) && pages[k].lastKey.Some? {
      ScansUseWrittenFilter(pages, k + 1, sent + |chunks|, params, failing);
      ScansFilteredAppend([Scan(ProfileFilter, StartKey(pages, k))] + BatchEvents(chunks), PagesFrom(pages, k + 1, sent + |chunks|, params, failing));
    }
    assert ProfileFilter[0] != "profile_basic"[0];
  }

  /** Pages of 30 and 23 users give batches of 25, 5 and 23: chunking restarts on every page. */
  lemma TwoPagesExample(pages: seq<Page>, params: Handoff)
    requires ScanPages(pages) && |pages| == 2 && |pages[0].users| == 30 && |pages[1].users| == 23
    ensures var batches := BatchesIn(FeedRun(pages, params, None));
      |batches| == 3 && |batches[0]| == 25 && |batches[1]| == 5 && |batches[2]| == 23
  {
    var c0, c1 := PageChunks(pages, 0, params), PageChunks(pages, 1, params);
    var s0 := Puts(pages[0].users, params);
    assert Chunks(s0) == [s0[..BatchSize]] + Chunks(s0[BatchSize..]);
    assert Chunks(s0[BatchSize..]) == [s0[BatchSize..]];
    var scan0, scan1 := Scan(ProfileFilter, None), Scan(ProfileFilter, pages[0].lastKey);
    var tail := [scan1] + BatchEvents(c1);
    assert pages[0].lastKey.Some? && pages[1].lastKey.None?;
    PageStep(pages, 0, 0, params, None);
    PageStep(pages, 1, |c0|, params, None);
    assert FeedRun(pages, params, None) == [scan0] + BatchEvents(c0) + tail;
    BatchesInAppend([scan0] + BatchEvents(c0), tail);
    BatchesInAppend([scan0], BatchEvents(c0));
    BatchesInAppend([scan1], BatchEvents(c1));
    BatchesInBatchEvents(c0);
    BatchesInBatchEvents(c1);
    assert BatchesIn([scan0]) == [] && BatchesIn([scan1]) == [];
  }

  /** A page without users sends no batch, yet its continuation key is followed. */
  lemma EmptyPageContinues(pages: seq<Page>, k: nat, sent: nat, params: Handoff, failing: Option<nat>)
    requires ScanPages(pages) && k < |pages| && pages[k].users == [] && pages[k].lastKey.Some?
    ensures PagesFrom(pages, k, sent, params, failing) == [Scan(ProfileFilter, StartKey(pages, k))] + PagesFrom(pages, k + 1, sent, params, failing)
    ensures StartKey(pages, k + 1) == pages[k].lastKey
  {
    assert Puts(pages[k].users, params) == [];
  }
}
