/**
 The mailbox check as the program runs it: dictionaries, caches and folders updated in place
 (`get_dmarc_reports_from_mailbox`, `_classify_parsed_email` and `_dispose_invalid_message` in
 parsedmarc/__init__.py). Each method is tied to the function of MailboxSpec that says what it does.
 */
module Mailbox {
  import opened Wrappers
  import opened ParallelMap
  import opened MailboxSpec
  import opened MailboxRuns

  /** The lists one round fills while it parses. */
  class BatchLists {
    var aggregateReports: seq<Report>
    var failureReports: seq<Report>
    var smtpTlsReports: seq<Report>
    var aggregateUids: seq<Uid>
    var failureUids: seq<Uid>
    var smtpTlsUids: seq<Uid>
    var pendingKeys: set<Key>

    constructor ()
      ensures View() == NOTHING_SORTED
    {
      aggregateReports, failureReports, smtpTlsReports := [], [], [];
      aggregateUids, failureUids, smtpTlsUids := [], [], [];
      pendingKeys := {};
    }

    function View(): Sorted
      reads this
    {
      Sorted(Batch(aggregateReports, failureReports, smtpTlsReports), aggregateUids, failureUids, smtpTlsUids,
        pendingKeys)
    }

    /** Appends a parsed report to the matching list unless it is a duplicate, and tells its kind. */
    method ClassifyParsedEmail(report: Report, seen: set<Key>) returns (kind: Kind)
      modifies this`aggregateReports, this`failureReports, this`smtpTlsReports, this`pendingKeys
      ensures kind == report.kind
      ensures View().batch == Classify(old(View()), 0, report, seen).batch
      ensures View().pending == Classify(old(View()), 0, report, seen).pending
    {
      kind := report.kind;
      match kind {
        case Aggregate =>
          var key := report.org + "_" + report.id;
          var alreadySeen := key in seen || key in pendingKeys;
          if !alreadySeen {
            pendingKeys := pendingKeys + {key};
            aggregateReports := aggregateReports + [report];
          }
        case Failure =>
          failureReports := failureReports + [report];
        case SmtpTls =>
          smtpTlsReports := smtpTlsReports + [report];
      }
    }

    /** Classifies a message's report and remembers the message under the report's kind. */
    method Take(uid: Uid, report: Report, seen: set<Key>)
      modifies this
      ensures View() == Classify(old(View()), uid, report, seen)
    {
      var kind := ClassifyParsedEmail(report, seen);
      match kind {
        case Aggregate => aggregateUids := aggregateUids + [uid];
        case Failure => failureUids := failureUids + [uid];
        case SmtpTls => smtpTlsUids := smtpTlsUids + [uid];
      }
    }
  }

  /* ---------- Lemmas the loops rest on ---------- */

  lemma {:induction false} RefusalStays(uids: seq<Uid>, i: nat, refused: set<Uid>, n: nat)
    requires i < n <= |uids| && BeforeRefusal(uids[..i], refused) == uids[..i] && uids[i] in refused
    ensures BeforeRefusal(uids[..n], refused) == uids[..i]
    ensures n == |uids| ==> uids[..n] == uids
  {
    assert uids[..n][..n - 1] == uids[..n - 1];
    if n > i + 1 {
      RefusalStays(uids, i, refused, n - 1);
    }
  }

  lemma NothingDropped(attempts: map<Uid, nat>, uids: seq<Uid>)
    requires uids == []
    ensures Without(attempts, uids) == attempts
  {
  }

  lemma NothingBumped(attempts: map<Uid, nat>, uids: seq<Uid>)
    requires uids == []
    ensures Bumped(attempts, uids) == attempts
  {
  }

  lemma BumpedOneMore(attempts: map<Uid, nat>, uids: seq<Uid>, uid: Uid)
    requires uid !in uids
    ensures AttemptsOf(Bumped(attempts, uids), uid) == AttemptsOf(attempts, uid)
    ensures Bumped(attempts, uids)[uid := AttemptsOf(attempts, uid) + 1] == Bumped(attempts, uids + [uid])
  {
  }

  lemma NothingMoved(folders: Folders, destination: Folder)
    ensures Moved(folders, {}, destination) == folders
  {
  }

  lemma MovedOneMore(folders: Folders, uids: set<Uid>, uid: Uid, destination: Folder)
    ensures Disposed(Moved(folders, uids, destination), [uid], false, destination, {}) == Moved(folders,
      uids + {uid}, destination)
    ensures Disposed(Moved(folders, uids, destination), [uid], false, destination, {uid}) == Moved(folders, uids,
      destination)
  {
  }

  lemma DisposedNext(folders: Folders, uids: seq<Uid>, i: nat, delete: bool, destination: Folder, refused: set<Uid>)
    requires i < |uids|
    ensures Disposed(Disposed(folders, uids[..i], delete, destination, refused), [uids[i]], delete, destination,
        if uids[i] in refused then {uids[i]} else {})
      == Disposed(folders, uids[..i + 1], delete, destination, refused)
  {
    assert uids[..i + 1] == uids[..i] + [uids[i]];
  }

  /** No message is listed twice. */
  lemma {:induction false} ListedDistinct(messages: seq<Message>, parse: Content -> Parsed, seen: set<Key>)
    requires DistinctUids(messages)
    ensures Distinct(ClassifyAll(NOTHING_SORTED, messages, parse, seen).Uids())
  {
    if messages != [] {
      var n := |messages| - 1;
      var m := messages[n];
      var before := ClassifyAll(NOTHING_SORTED, messages[..n], parse, seen);
      ListedDistinct(messages[..n], parse, seen);
      forall kind ensures m.uid !in before.UidsOf(kind) {
        if m.uid in before.UidsOf(kind) {
          ListedMessagesParse(messages[..n], parse, seen, kind, m.uid);
        }
      }
      assert m.uid !in before.UidsOf(Aggregate) && m.uid !in before.UidsOf(Kind.Failure) &&
        m.uid !in before.UidsOf(SmtpTls);
      if parse(m.content).Parses? {
        ListedOneMore(before, m.uid, parse(m.content).report, seen);
        match parse(m.content).report.kind {
          case Aggregate => InsertDistinct(before.aggregateUids, before.failureUids + before.smtpTlsUids, m.uid);
          case Failure => InsertDistinct(before.aggregateUids + before.failureUids, before.smtpTlsUids, m.uid);
          case SmtpTls => InsertDistinct(before.aggregateUids + before.failureUids + before.smtpTlsUids, [], m.uid);
        }
      }
    }
  }

  lemma InsertDistinct<T>(a: seq<T>, b: seq<T>, x: T)
    requires Distinct(a + b) && x !in a && x !in b
    ensures Distinct(a + [x] + b)
  {
    forall i, j | 0 <= i < |a| && 0 <= j < |b| ensures a[i] != b[j] {
      assert (a + b)[i] != (a + b)[|a| + j];
    }
    forall i, j | 0 <= i < j < |a| ensures a[i] != a[j] { assert (a + b)[i] != (a + b)[j]; }
    forall i, j | 0 <= i < j < |b| ensures b[i] != b[j] { assert (a + b)[|a| + i] != (a + b)[|a| + j]; }
  }

  lemma ListedOneMore(c: Sorted, uid: Uid, report: Report, seen: set<Key>)
    ensures Classify(c, uid, report, seen).Uids() ==
      match report.kind
      case Aggregate => c.aggregateUids + [uid] + (c.failureUids + c.smtpTlsUids)
      case Failure => c.aggregateUids + c.failureUids + [uid] + c.smtpTlsUids
      case SmtpTls => c.aggregateUids + c.failureUids + c.smtpTlsUids + [uid] + []
    ensures c.Uids() == c.aggregateUids + (c.failureUids + c.smtpTlsUids)
    ensures c.Uids() == c.aggregateUids + c.failureUids + c.smtpTlsUids + []
  {
  }

  lemma DisposeRefused(folders: Folders, u: Uid, delete: bool, destination: Folder)
    ensures Disposed(folders, [u], delete, destination, {u}) == folders
  {
  }

  lemma {:induction false} SequentialStays(s: Settings, messages: seq<Message>, k: nat, parse: Content -> Parsed,
      seen: set<Key>,
      folders: Folders, refused: set<Uid>)
    requires k <= |messages| && !SequentialParse(s, messages[..k], parse, seen, folders, refused).done
    ensures SequentialParse(s, messages, parse, seen, folders, refused)
      == SequentialParse(s, messages[..k], parse, seen, folders, refused)
    decreases |messages|
  {
    if k == |messages| {
      assert messages[..k] == messages;
    } else {
      assert messages[..|messages| - 1][..k] == messages[..k];
      SequentialStays(s, messages[..|messages| - 1], k, parse, seen, folders, refused);
    }
  }

  /** What the consumer has made of the first `k` messages. */
  ghost predicate SortedSoFar(messages: seq<Message>, k: nat, parse: Content -> Parsed, seen: set<Key>,
      sorted: Sorted, invalid: seq<Uid>) {
    && k <= |messages|
    && NoCrash(messages[..k], parse)
    && sorted == ClassifyAll(NOTHING_SORTED, messages[..k], parse, seen)
    && invalid == InvalidUids(messages[..k], parse)
  }

  lemma NothingSortedYet(messages: seq<Message>, parse: Content -> Parsed, seen: set<Key>)
    ensures SortedSoFar(messages, 0, parse, seen, NOTHING_SORTED, [])
  {
  }

  lemma OneMoreSorted(messages: seq<Message>, k: nat, parse: Content -> Parsed, seen: set<Key>, sorted: Sorted,
      invalid: seq<Uid>)
    requires k < |messages| && SortedSoFar(messages, k, parse, seen, sorted, invalid)
    ensures var m := messages[k];
      match parse(m.content)
      case Parses(report) => SortedSoFar(messages, k + 1, parse, seen, Classify(sorted, m.uid, report, seen), invalid)
      case Unparseable => SortedSoFar(messages, k + 1, parse, seen, sorted, invalid + [m.uid])
      case Crashes => !NoCrash(messages, parse)
  {
    assert messages[..k + 1][..k] == messages[..k] && messages[k] in messages;
    assert messages[..k + 1] == messages[..k] + [messages[k]];
  }

  lemma EverythingSorted(messages: seq<Message>, k: nat, parse: Content -> Parsed, seen: set<Key>, sorted: Sorted,
      invalid: seq<Uid>)
    requires SortedSoFar(messages, k, parse, seen, sorted, invalid) && k == |JobsOf(messages)|
    ensures NoCrash(messages, parse)
    ensures sorted == ClassifyAll(NOTHING_SORTED, messages, parse, seen) && invalid == InvalidUids(messages, parse)
  {
    assert messages[..k] == messages;
  }

  /** With `k` results consumed, the queue holds the ids of the messages fetched beyond them, in order. */
  ghost predicate QueueAligned(messages: seq<Message>, k: nat, pulled: nat, queue: seq<Uid>) {
    && k <= pulled <= |messages|
    && |queue| == pulled - k
    && (forall i :: 0 <= i < |queue| ==> queue[i] == messages[k + i].uid)
  }

  /** `k` results consumed, the next one in hand unless the pool is exhausted. */
  ghost predicate Aligned(pool: Pool<Uid, Content, Parsed>, messages: seq<Message>, k: nat, next: Option<Parsed>)
    reads pool, pool.source
  {
    && pool.Valid() && !pool.stopped && pool.source.jobs == JobsOf(messages)
    && QueueAligned(messages, k, pool.source.pulled, pool.source.fetchedIds)
    && match next
       case Some(result) => |pool.delivered| == k + 1 && pool.stage == Suspended &&
         result == pool.func(pool.delivered[k])
       case None => |pool.delivered| == k && pool.stage == Exhausted
  }

  method NextResult(pool: Pool<Uid, Content, Parsed>, messages: seq<Message>,
      ghost k: nat) returns (next: Option<Parsed>)
    requires pool.Valid() && !pool.stopped && pool.stage != Exhausted && pool.source.jobs == JobsOf(messages)
    requires |pool.delivered| == k && QueueAligned(messages, k, pool.source.pulled, pool.source.fetchedIds)
    modifies pool, pool.source
    ensures Aligned(pool, messages, k, next)
  {
    hide QueueAligned, JobsOf, Pool.Valid, Payloads, Ids;
    ghost var pulled, queue := pool.source.pulled, pool.source.fetchedIds;
    next := pool.Next(false, {}, 0);
    pool.StageTellsStopped();
    MoreFetched(messages, k, pulled, pool.source.pulled, queue, pool.source.fetchedIds);
  }

  lemma MoreFetched(messages: seq<Message>, k: nat, p: nat, q: nat, queue: seq<Uid>, longer: seq<Uid>)
    requires QueueAligned(messages, k, p, queue) && p <= q <= |JobsOf(messages)|
    requires longer == queue + Ids(JobsOf(messages)[p..q])
    ensures QueueAligned(messages, k, q, longer)
  {
  }

  /** The queue's head is the id of the message whose result is in hand. */
  lemma HeadIsNext(pool: Pool<Uid, Content, Parsed>, messages: seq<Message>, k: nat, result: Parsed)
    requires Aligned(pool, messages, k, Some(result))
    ensures k < |messages| && pool.source.fetchedIds != []
    ensures pool.source.fetchedIds[0] == messages[k].uid
    ensures result == pool.func(messages[k].content)
    ensures pool.Valid() && !pool.stopped && pool.stage == Suspended
    ensures pool.source.jobs == JobsOf(messages) && |pool.delivered| == k + 1
    ensures QueueAligned(messages, k + 1, pool.source.pulled, pool.source.fetchedIds[1..])
  {
    pool.DeliveredInOrder();
    hide Pool.Valid;
    assert pool.delivered[k] == Payloads(pool.source.jobs[..|pool.delivered|])[k];
  }

  lemma AllConsumed(pool: Pool<Uid, Content, Parsed>, messages: seq<Message>, k: nat)
    requires Aligned(pool, messages, k, None)
    ensures k == |JobsOf(messages)|
  {
    pool.AllDelivered();
  }

  function JobsOf(messages: seq<Message>): (r: seq<Job<Uid, Content>>) {
    seq(|messages|, i requires 0 <= i < |messages| => Job(messages[i].uid, messages[i].content))
  }

  class Checker {
    var folders: Folders
    var seenKeys: set<Key>
    var failedSaveAttempts: map<Uid, nat>
    ghost var history: seq<Entry>

    constructor (folders: Folders)
      ensures View() == World(State(folders, {}, map[]), [])
    {
      this.folders := folders;
      seenKeys, failedSaveAttempts, history := {}, map[], [];
    }

    function Now(): State
      reads this
    {
      State(folders, seenKeys, failedSaveAttempts)
    }

    ghost function View(): World
      reads this
    {
      World(Now(), history)
    }

    /** Deletes or moves one message; `refused` says whether the server raises instead. */
    method Dispose(uid: Uid, delete: bool, destination: Folder, refused: bool) returns (done: bool)
      modifies this`folders
      ensures done == !refused
      ensures folders == Disposed(old(folders), [uid], delete, destination, if refused then {uid} else {})
    {
      if refused {
        assert folders == Disposed(folders, [uid], delete, destination, {uid});
        return false;
      }
      if delete {
        folders := folders - {uid};
      } else if uid in folders {
        folders := folders[uid := destination];
      }
      return true;
    }

    /** Disposes of the invalid messages of the parallel branch; the first refusal ends the call. */
    method DisposeInvalidMessages(uids: seq<Uid>, delete: bool, refused: set<Uid>) returns (done: bool)
      modifies this`folders
      ensures var handled := BeforeRefusal(uids, refused);
        done == (|handled| == |uids|) && folders == Disposed(old(folders), handled, delete, InvalidFolder, {})
    {
      NothingDisposed(folders, delete, InvalidFolder, {});
      for i := 0 to |uids|
        invariant BeforeRefusal(uids[..i], refused) == uids[..i]
        invariant folders == Disposed(old(folders), uids[..i], delete, InvalidFolder, {})
      {
        assert uids[..i + 1] == uids[..i] + [uids[i]];
        OneMoreInvalid(uids[..i], uids[i], refused);
        DisposedOneMore(old(folders), uids[..i], uids[i], delete, InvalidFolder);
        done := Dispose(uids[i], delete, InvalidFolder, uids[i] in refused);
        if !done {
          RefusalStays(uids, i, refused, |uids|);
          DisposeRefused(Disposed(old(folders), uids[..i], delete, InvalidFolder, {}), uids[i], delete, InvalidFolder);
          return;
        }
      }
      assert uids[..|uids|] == uids;
      return true;
    }

    /** Parses and sorts one message after the other, disposing of an invalid one at once. */
    method ParseSequentially(s: Settings, messages: seq<Message>, parse: Content -> Parsed, lists: BatchLists,
        refused: set<Uid>)
      returns (done: bool)
      requires lists.View() == NOTHING_SORTED
      modifies this`folders, lists
      ensures var parsing := SequentialParse(s, messages, parse, seenKeys, old(folders), refused);
        done == parsing.done && folders == parsing.folders && (done ==> lists.View() == parsing.sorted)
    {
      ghost var before := folders;
      for i := 0 to |messages|
        invariant var parsing := SequentialParse(s, messages[..i], parse, seenKeys, before, refused);
          parsing.done && folders == parsing.folders && lists.View() == parsing.sorted
      {
        assert messages[..i + 1][..i] == messages[..i];
        ghost var soFar := folders;
        var m := messages[i];
        match parse(m.content) {
          case Parses(report) =>
            lists.Take(m.uid, report, seenKeys);
          case Crashes =>
            SequentialStays(s, messages, i + 1, parse, seenKeys, before, refused);
            return false;
          case Unparseable =>
            if !s.test {
              var disposed := Dispose(m.uid, s.deleteInvalid, InvalidFolder, m.uid in refused);
              if !disposed {
                DisposeRefused(soFar, m.uid, s.deleteInvalid, InvalidFolder);
                SequentialStays(s, messages, i + 1, parse, seenKeys, before, refused);
                return false;
              }
            }
        }
      }
      assert messages[..|messages|] == messages;
      return true;
    }

    /** Sorts the k-th result; the exception of a job escapes to the caller. */
    method SortResult(messages: seq<Message>, ghost k: nat, parse: Content -> Parsed, lists: BatchLists,
        invalid: seq<Uid>,
        messageId: Uid, result: Parsed) returns (done: bool, invalid': seq<Uid>)
      requires k < |messages| && messageId == messages[k].uid && result == parse(messages[k].content)
      requires SortedSoFar(messages, k, parse, seenKeys, lists.View(), invalid)
      modifies lists
      ensures done <==> !result.Crashes?
      ensures if done then SortedSoFar(messages, k + 1, parse, seenKeys, lists.View(), invalid')
        else !NoCrash(messages, parse)
    {
      OneMoreSorted(messages, k, parse, seenKeys, lists.View(), invalid);
      hide SortedSoFar, Classify, BatchLists.View;
      invalid' := invalid;
      match result {
        case Parses(report) => lists.Take(messageId, report, seenKeys);
        case Unparseable => invalid' := invalid + [messageId];
        case Crashes => return false, invalid;
      }
      done := true;
    }

    /** One iteration of the consumer: the id at the head of the queue belongs to the result in hand. */
    method ConsumeOne(pool: Pool<Uid, Content, Parsed>, messages: seq<Message>, ghost k: nat, lists: BatchLists,
        invalid: seq<Uid>, result: Parsed) returns (done: bool, invalid': seq<Uid>, next: Option<Parsed>)
      requires Aligned(pool, messages, k, Some(result))
      requires SortedSoFar(messages, k, pool.func, seenKeys, lists.View(), invalid)
      modifies pool, pool.source, lists
      ensures done ==> k < |messages| && Aligned(pool, messages, k + 1, next)
      ensures if done then SortedSoFar(messages, k + 1, pool.func, seenKeys, lists.View(), invalid')
              else !NoCrash(messages, pool.func)
    {
      HeadIsNext(pool, messages, k, result);
      hide *;
      var messageId := pool.source.PopId();
      done, invalid' := SortResult(messages, k, pool.func, lists, invalid, messageId, result);
      next := None;
      if done {
        next := NextResult(pool, messages, k + 1);
      }
    }

    /**
     Parses all messages through the worker pool and sorts the results. The pool's producer queues the id
     of every message it fetches; the head of that queue belongs to the next result.
     */
    method SortInParallel(messages: seq<Message>, parse: Content -> Parsed, lists: BatchLists, nProcs: nat)
      returns (done: bool, invalid: seq<Uid>)
      requires lists.View() == NOTHING_SORTED
      modifies lists
      ensures done <==> NoCrash(messages, parse)
      ensures done ==> lists.View() == ClassifyAll(NOTHING_SORTED, messages, parse, seenKeys)
      ensures done ==> invalid == InvalidUids(messages, parse)
    {
      var source := new JobSource(JobsOf(messages));
      var pool := new Pool(parse, source, WindowSize(2, nProcs), true);
      invalid := [];
      ghost var k := 0;
      NothingSortedYet(messages, parse, seenKeys);
      hide *;
      var next := NextResult(pool, messages, k);
      while next.Some?
        invariant fresh(pool) && fresh(source) && pool.source == source
        invariant pool.func == parse && Aligned(pool, messages, k, next)
        invariant SortedSoFar(messages, k, parse, seenKeys, lists.View(), invalid)
        decreases |messages| - k, next.Some?
      {
        done, invalid, next := ConsumeOne(pool, messages, k, lists, invalid, next.value);
        if !done {
          return;
        }
        k := k + 1;
      }
      AllConsumed(pool, messages, k);
      EverythingSorted(messages, k, parse, seenKeys, lists.View(), invalid);
      done := true;
    }

    method ParseInParallel(s: Settings, messages: seq<Message>, parse: Content -> Parsed, lists: BatchLists,
        refused: set<Uid>)
      returns (done: bool)
      requires lists.View() == NOTHING_SORTED && s.nProcs >= 1
      modifies this`folders, lists
      ensures var parsing := ParallelParse(s, messages, parse, seenKeys, old(folders), refused);
        done == parsing.done && folders == parsing.folders
        && (NoCrash(messages, parse) ==> lists.View() == parsing.sorted)
    {
      var invalid;
      done, invalid := SortInParallel(messages, parse, lists, s.nProcs);
      if done && !s.test {
        done := DisposeInvalidMessages(invalid, s.deleteInvalid, refused);
      }
    }

    /** Puts away the messages of one kind; a refused move or deletion is logged and skipped. */
    method PutAway(uids: seq<Uid>, delete: bool, destination: Folder, refused: set<Uid>)
      modifies this`folders
      ensures folders == Disposed(old(folders), uids, delete, destination, refused)
    {
      NothingDisposed(folders, delete, destination, refused);
      for i := 0 to |uids|
        invariant folders == Disposed(old(folders), uids[..i], delete, destination, refused)
      {
        DisposedNext(old(folders), uids, i, delete, destination, refused);
        var _ := Dispose(uids[i], delete, destination, uids[i] in refused);
      }
      assert uids[..|uids|] == uids;
    }

    /** A saved batch. */
    method CommitBatch(s: Settings, lists: BatchLists, refused: set<Uid>)
      modifies this`folders, this`seenKeys, this`failedSaveAttempts
      ensures Now() == Commit(s, old(Now()), lists.View(), refused)
    {
      ghost var before := Now();
      ghost var sorted := lists.View();
      hide Disposed;
      var keys := lists.pendingKeys;
      while keys != {}
        invariant seenKeys + keys == before.seen + sorted.pending && keys <= sorted.pending
        invariant folders == before.folders && failedSaveAttempts == before.attempts
        decreases keys
      {
        var key :| key in keys;
        seenKeys := seenKeys + {key};
        keys := keys - {key};
      }
      assert seenKeys == before.seen + sorted.pending;
      if s.test {
        return;
      }
      var batchUids := lists.aggregateUids + lists.failureUids + lists.smtpTlsUids;
      NothingDropped(before.attempts, batchUids[..0]);
      for i := 0 to |batchUids|
        invariant failedSaveAttempts == Without(before.attempts, batchUids[..i])
        invariant folders == before.folders && seenKeys == before.seen + sorted.pending
      {
        failedSaveAttempts := failedSaveAttempts - {batchUids[i]};
        assert batchUids[..i + 1] == batchUids[..i] + [batchUids[i]];
      }
      assert batchUids[..|batchUids|] == batchUids == sorted.Uids();
      PutAway(lists.aggregateUids, Aggregate in s.deletes, TypeFolder(Aggregate), refused);
      PutAway(lists.failureUids, Kind.Failure in s.deletes, TypeFolder(Kind.Failure), refused);
      PutAway(lists.smtpTlsUids, SmtpTls in s.deletes, TypeFolder(SmtpTls), refused);
    }

    /** Counts one more failed attempt for each message and finds those whose retries have run out. */
    method CountAttempts(s: Settings, batchUids: seq<Uid>) returns (overCap: seq<Uid>)
      requires Distinct(batchUids)
      modifies this`failedSaveAttempts
      ensures failedSaveAttempts == Bumped(old(failedSaveAttempts), batchUids)
      ensures forall u :: u in overCap <==> u in batchUids && OverCap(s, old(failedSaveAttempts), u)
    {
      overCap := [];
      ghost var before := failedSaveAttempts;
      hide Bumped;
      NothingBumped(before, batchUids[..0]);
      for i := 0 to |batchUids|
        invariant failedSaveAttempts == Bumped(before, batchUids[..i])
        invariant forall u :: u in overCap <==> u in batchUids[..i] && OverCap(s, before, u)
      {
        var uid := batchUids[i];
        assert batchUids[..i + 1] == batchUids[..i] + [uid] && uid !in batchUids[..i];
        BumpedOneMore(before, batchUids[..i], uid);
        var attempts := AttemptsOf(failedSaveAttempts, uid) + 1;
        failedSaveAttempts := failedSaveAttempts[uid := attempts];
        if attempts > s.maxUnsavedRetries {
          overCap := overCap + [uid];
        }
      }
      assert batchUids[..|batchUids|] == batchUids;
    }

    /** An unsaved batch. */
    method HoldBatch(s: Settings, lists: BatchLists, refused: set<Uid>)
      requires Distinct(lists.View().Uids())
      modifies this`folders, this`failedSaveAttempts
      ensures Now() == Hold(s, old(Now()), lists.View(), refused)
    {
      if s.test {
        return;
      }
      ghost var before := Now();
      var batchUids := lists.aggregateUids + lists.failureUids + lists.smtpTlsUids;
      var overCap := CountAttempts(s, batchUids);
      ghost var bumped := failedSaveAttempts;
      ghost var shelved: set<Uid> := {};
      NothingMoved(before.folders, UnsavedFolder);
      hide Moved, Bumped, Disposed;
      for i := 0 to |overCap|
        invariant failedSaveAttempts == bumped - shelved
        invariant folders == Moved(before.folders, shelved, UnsavedFolder)
        invariant forall u :: u in shelved <==> u in overCap[..i] && u !in refused
      {
        assert overCap[..i + 1] == overCap[..i] + [overCap[i]];
        MovedOneMore(before.folders, shelved, overCap[i], UnsavedFolder);
        var moved := Dispose(overCap[i], false, UnsavedFolder, overCap[i] in refused);
        if moved {
          failedSaveAttempts := failedSaveAttempts - {overCap[i]};
          shelved := shelved + {overCap[i]};
        }
      }
      assert overCap[..|overCap|] == overCap;
      assert shelved == Shelved(s, before, batchUids, refused);
    }

    /** One fetch: parse, ask the callback, commit or hold back. */
    method CheckOnce(s: Settings, r: Round, earlier: Batch) returns (status: Status)
      requires ValidRound(View(), r) && s.Accepted()
      modifies this
      ensures Outcome(View(), status) == RunRound(old(View()), s, r, earlier)
      ensures if status == ParseAborted then history == old(history)
        else RoundEnds(old(history), history, s, r, earlier, status)
    {
      hide RoundEnds;
      RoundReturns(View(), s, r, earlier);
      var messages := r.messages;
      if s.batchSize != 0 && !s.since && s.batchSize < |r.messages| {
        messages := r.messages[..s.batchSize];
      }
      var lists := new BatchLists();
      var done;
      ghost var before := View();
      if s.nProcs > 1 && |messages| > 1 {
        done := ParseInParallel(s, messages, r.parse, lists, r.refused);
      } else {
        done := ParseSequentially(s, messages, r.parse, lists, r.refused);
      }
      ParsedRound(s, r, before.state);
      if !done {
        return ParseAborted;
      }
      ListedDistinct(messages, r.parse, before.state.seen);
      ghost var parsed := Now();
      ghost var sorted := lists.View();
      hide ParallelParse, SequentialParse, ClassifyAll, Commit, Hold, Shelved;
      var persisted := true;
      var callbackError := false;
      if s.hasCallback {
        persisted := r.verdict == Saved;
        callbackError := r.verdict == Raised;
      }
      history := history + [Entry(sorted.Uids(), sorted.batch, persisted, s.test,
        if persisted || s.test then {} else Shelved(s, parsed, sorted.Uids(), r.refused))];
      if persisted {
        CommitBatch(s, lists, r.refused);
      } else {
        HoldBatch(s, lists, r.refused);
      }
      if callbackError {
        return CallbackRaised;
      }
      return Returned(Append(earlier, Batch(lists.aggregateReports, lists.failureReports, lists.smtpTlsReports)),
        persisted);
    }

    /** `get_dmarc_reports_from_mailbox`; `again` is what the re-check after the first round finds, if anything. */
    method GetReports(s: Settings, r: Round, again: Option<Round>) returns (status: Status)
      requires s.Accepted() ==> ValidRound(View(), r)
      requires again.Some? && s.Accepted() ==> ValidRound(RunRound(View(), s, r, EMPTY_BATCH).world, again.value)
      modifies this
      ensures Outcome(View(), status) == RunCall(old(View()), s, r, again)
      ensures s.maxUnsavedRetries < 0 || (s.test && (s.deletes != {} || s.deleteInvalid)) ==>
        status == BadArguments && View() == old(View())
      ensures s.maxUnsavedRetries >= 0 && !(s.test && (s.deletes != {} || s.deleteInvalid)) ==>
        status != BadArguments && CallEnds(old(history), history, s, r, again, status)
    {
      CallReturns(View(), s, r, again);
      hide RunRound, ValidRound, CallEnds;
      if s.test && (s.deletes != {} || s.deleteInvalid) {
        return BadArguments;
      }
      if s.maxUnsavedRetries < 0 {
        return BadArguments;
      }
      status := CheckOnce(s, r, EMPTY_BATCH);
      if status.Returned? && status.persisted && !s.test && s.batchSize == 0 && again.Some? {
        status := CheckOnce(Again(s), again.value, status.reports);
      }
    }
  }
}
