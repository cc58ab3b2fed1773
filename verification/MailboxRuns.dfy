/** What every run of mailbox checks keeps. */
module MailboxRuns {
  import opened Wrappers
  import opened MailboxSpec

  /* ---------- Well-formed rounds ---------- */

  /** What a mail server promises about a fetch: distinct messages, all of them in the reports folder. */
  ghost predicate ValidRound(w: World, r: Round) {
    && (forall i, j :: 0 <= i < j < |r.messages| ==> r.messages[i].uid != r.messages[j].uid)
    && (forall i :: 0 <= i < |r.messages| ==>
          r.messages[i].uid in w.state.folders && w.state.folders[r.messages[i].uid] == Reports)
  }

  ghost predicate DistinctUids(messages: seq<Message>) {
    forall i, j :: 0 <= i < j < |messages| ==> messages[i].uid != messages[j].uid
  }

  /* ---------- Classification ---------- */

  function Keys(reports: seq<Report>): (r: seq<Key>) {
    seq(|reports|, k requires 0 <= k < |reports| => KeyOf(reports[k]))
  }

  ghost predicate Distinct<T>(s: seq<T>) {
    forall i, j :: 0 <= i < j < |s| ==> s[i] != s[j]
  }

  function KeySet(reports: seq<Report>): (r: set<Key>) {
    set k | 0 <= k < |reports| :: KeyOf(reports[k])
  }

  /** The report reached the round's batch, or an aggregate report with its key did, now or earlier. */
  ghost predicate InBatch(report: Report, sorted: Sorted, seen: set<Key>) {
    match report.kind
    case Aggregate => KeyOf(report) in seen + sorted.pending
    case Failure => report in sorted.batch.failure
    case SmtpTls => report in sorted.batch.smtpTls
  }

  ghost predicate Listed(c: Sorted, m: Message, parse: Content -> Parsed, seen: set<Key>) {
    parse(m.content).Parses? ==>
      m.uid in c.UidsOf(parse(m.content).report.kind) && InBatch(parse(m.content).report, c, seen)
  }

  ghost predicate Accounted(c: Sorted, messages: seq<Message>, parse: Content -> Parsed, seen: set<Key>) {
    && c.pending == KeySet(c.batch.aggregate)
    && c.pending !! seen
    && Distinct(Keys(c.batch.aggregate))
    && (forall m :: m in messages ==> Listed(c, m, parse, seen))
  }

  ghost predicate Origin(kind: Kind, u: Uid, messages: seq<Message>, parse: Content -> Parsed) {
    exists m :: m in messages && m.uid == u && parse(m.content).Parses? && parse(m.content).report.kind == kind
  }

  lemma {:induction false} ClassificationAccounts(messages: seq<Message>, parse: Content -> Parsed, seen: set<Key>)
    ensures Accounted(ClassifyAll(NOTHING_SORTED, messages, parse, seen), messages, parse, seen)
  {
    if messages != [] {
      var n := |messages| - 1;
      var before := ClassifyAll(NOTHING_SORTED, messages[..n], parse, seen);
      ClassificationAccounts(messages[..n], parse, seen);
      assert messages == messages[..n] + [messages[n]];
      if parse(messages[n].content).Parses? {
        ClassifyAccounts(before, messages[..n], messages[n], parse, seen);
      }
    }
  }

  lemma ClassifyAccounts(c: Sorted, messages: seq<Message>, m: Message, parse: Content -> Parsed, seen: set<Key>)
    requires Accounted(c, messages, parse, seen) && parse(m.content).Parses?
    ensures Accounted(Classify(c, m.uid, parse(m.content).report, seen), messages + [m], parse, seen)
  {
    var report := parse(m.content).report;
    var c' := Classify(c, m.uid, report, seen);
    if c'.batch.aggregate != c.batch.aggregate {
      assert c'.batch.aggregate == c.batch.aggregate + [report];
      assert Keys(c'.batch.aggregate) == Keys(c.batch.aggregate) + [KeyOf(report)];
      KeySetGrows(c.batch.aggregate, report);
    }
    forall m' | m' in messages + [m] ensures Listed(c', m', parse, seen) {
      if m' in messages {
        assert Listed(c, m', parse, seen);
      } else {
        assert m' == m;
      }
    }
  }

  lemma KeySetGrows(reports: seq<Report>, report: Report)
    ensures KeySet(reports + [report]) == KeySet(reports) + {KeyOf(report)}
    ensures KeyOf(report) !in KeySet(reports) ==> KeyOf(report) !in Keys(reports)
  {
    var longer := reports + [report];
    forall k | k in KeySet(reports) + {KeyOf(report)} ensures k in KeySet(longer) {
      if k == KeyOf(report) {
        assert longer[|reports|] == report;
      } else {
        var i :| 0 <= i < |reports| && KeyOf(reports[i]) == k;
        assert longer[i] == reports[i];
      }
    }
  }

  /** One list of a batch. */
  function ListOf(batch: Batch, kind: Kind): seq<Report> {
    match kind case Aggregate => batch.aggregate case Failure => batch.failure case SmtpTls => batch.smtpTls
  }

  /** The message parses to a report of the kind that goes into the batch: of aggregates only the first with its key. */
  ghost predicate Chosen(messages: seq<Message>, parse: Content -> Parsed, seen: set<Key>, kind: Kind, i: nat) {
    && i < |messages| && IsParsed(messages[i], parse, kind)
    && (kind == Aggregate ==>
          var key := KeyOf(parse(messages[i].content).report);
          key !in seen && forall j :: 0 <= j < i && IsParsed(messages[j], parse, Aggregate) ==>
            KeyOf(parse(messages[j].content).report) != key)
  }

  predicate IsParsed(m: Message, parse: Content -> Parsed, kind: Kind) {
    parse(m.content).Parses? && parse(m.content).report.kind == kind
  }

  /** `reports` are the reports of the messages at the positions `from`, in order, and those are the chosen ones. */
  ghost predicate AreChosen(messages: seq<Message>, parse: Content -> Parsed, seen: set<Key>, kind: Kind,
      reports: seq<Report>, from: seq<nat>)
  {
    && |from| == |reports|
    && (forall k :: 0 <= k < |from| ==> from[k] < |messages| && parse(messages[from[k]].content) == Parses(reports[k]))
    && (forall a, b :: 0 <= a < b < |from| ==> from[a] < from[b])
    && (forall i: nat :: i in from <==> Chosen(messages, parse, seen, kind, i))
  }

  lemma ChosenInFront(messages: seq<Message>, n: nat, parse: Content -> Parsed, seen: set<Key>, kind: Kind, i: nat)
    requires n <= |messages|
    ensures i < n ==> (Chosen(messages[..n], parse, seen, kind, i) <==> Chosen(messages, parse, seen, kind, i))
  {
    hide KeyOf, IsParsed;
    assert forall j :: 0 <= j < n ==> messages[..n][j] == messages[j];
  }

  /** The last message is chosen exactly when classifying it adds its report. */
  lemma LastIsChosen(messages: seq<Message>, parse: Content -> Parsed, seen: set<Key>, kind: Kind)
    requires messages != []
    ensures var n := |messages| - 1;
      var before := ClassifyAll(NOTHING_SORTED, messages[..n], parse, seen);
      var after := ClassifyAll(NOTHING_SORTED, messages, parse, seen);
      ListOf(after.batch, kind) == ListOf(before.batch, kind)
        + if Chosen(messages, parse, seen, kind, n) then [parse(messages[n].content).report] else []
  {
    var n := |messages| - 1;
    var front := messages[..n];
    var before := ClassifyAll(NOTHING_SORTED, front, parse, seen);
    ClassificationAccounts(front, parse, seen);
    if kind == Aggregate && IsParsed(messages[n], parse, Aggregate) {
      var key := KeyOf(parse(messages[n].content).report);
      if key in before.pending {
        KeyHasMessage(front, parse, seen, key);
        var j :| 0 <= j < n && IsParsed(front[j], parse, Aggregate) && KeyOf(parse(front[j].content).report) == key;
        assert messages[j] == front[j];
      }
      forall j |
        0 <= j < n && IsParsed(messages[j], parse, Aggregate) && KeyOf(parse(messages[j].content).report) == key
        ensures key in seen + before.pending
      {
        assert front[j] in front && Listed(before, front[j], parse, seen);
      }
    }
    hide ClassifyAll, Accounted, KeyOf;
    ClassifyLast(messages, parse, seen);
  }

  lemma ClassifyLast(messages: seq<Message>, parse: Content -> Parsed, seen: set<Key>)
    requires messages != []
    ensures var n := |messages| - 1;
      var before := ClassifyAll(NOTHING_SORTED, messages[..n], parse, seen);
      ClassifyAll(NOTHING_SORTED, messages, parse, seen) ==
        if parse(messages[n].content).Parses? then Classify(before, messages[n].uid, parse(messages[n].content).report,
          seen) else before
  {
    hide Classify;
  }

  /** A staged key is that of a message's aggregate report. */
  lemma {:induction false} KeyHasMessage(messages: seq<Message>, parse: Content -> Parsed, seen: set<Key>, key: Key)
    requires key in ClassifyAll(NOTHING_SORTED, messages, parse, seen).pending
    ensures exists j ::
      && 0 <= j < |messages| && IsParsed(messages[j], parse, Aggregate)
      && KeyOf(parse(messages[j].content).report) == key
  {
    if messages != [] {
      var n := |messages| - 1;
      var front := messages[..n];
      ClassifyLast(messages, parse, seen);
      if key in ClassifyAll(NOTHING_SORTED, front, parse, seen).pending {
        KeyHasMessage(front, parse, seen, key);
        var j :| 0 <= j < n && IsParsed(front[j], parse, Aggregate) && KeyOf(parse(front[j].content).report) == key;
        assert messages[j] == front[j];
      } else {
        assert IsParsed(messages[n], parse, Aggregate) && KeyOf(parse(messages[n].content).report) == key;
      }
    }
  }

  /**
   A batch holds, in the order of the messages, every failure and SMTP TLS report that parsed, and of the aggregate
   reports those whose key neither the cache nor an earlier message of the fetch has.
   */
  lemma {:induction false} BatchIsWhatParsed(messages: seq<Message>, parse: Content -> Parsed, seen: set<Key>,
      kind: Kind) returns (from: seq<nat>)
    ensures AreChosen(messages, parse, seen, kind,
                      ListOf(ClassifyAll(NOTHING_SORTED, messages, parse, seen).batch, kind), from)
  {
    if messages == [] {
      from := [];
    } else {
      var n := |messages| - 1;
      var before := BatchIsWhatParsed(messages[..n], parse, seen, kind);
      LastIsChosen(messages, parse, seen, kind);
      forall i: nat ensures i < n ==>
        (Chosen(messages[..n], parse, seen, kind, i) <==> Chosen(messages, parse, seen, kind, i))
      {
        ChosenInFront(messages, n, parse, seen, kind, i);
      }
      from := before + if Chosen(messages, parse, seen, kind, n) then [n] else [];
      hide ClassifyAll, ListOf, KeyOf;
      ChosenOneMore(messages, parse, seen, kind, before, from);
    }
  }

  lemma ChosenOneMore(messages: seq<Message>, parse: Content -> Parsed, seen: set<Key>, kind: Kind, before: seq<nat>,
      from: seq<nat>)
    requires messages != []
    requires var n := |messages| - 1;
      && from == before + (if Chosen(messages, parse, seen, kind, n) then [n] else [])
      && (forall i: nat :: i in before <==> Chosen(messages[..n], parse, seen, kind, i))
      && (forall i: nat :: i < n ==>
        (Chosen(messages[..n], parse, seen, kind, i) <==> Chosen(messages, parse, seen, kind, i)))
    ensures forall i: nat :: i in from <==> Chosen(messages, parse, seen, kind, i)
  {
    hide KeyOf, IsParsed;
  }

  /** Nothing but parsed messages is ever listed, each once and under its own kind. */
  lemma {:induction false} ListedMessagesParse(messages: seq<Message>, parse: Content -> Parsed, seen: set<Key>,
      kind: Kind, u: Uid)
    requires u in ClassifyAll(NOTHING_SORTED, messages, parse, seen).UidsOf(kind)
    ensures Origin(kind, u, messages, parse)
  {
    if messages != [] {
      var n := |messages| - 1;
      var before := ClassifyAll(NOTHING_SORTED, messages[..n], parse, seen);
      if u in before.UidsOf(kind) {
        ListedMessagesParse(messages[..n], parse, seen, kind, u);
        var m :| m in messages[..n] && m.uid == u && parse(m.content).Parses? && parse(m.content).report.kind == kind;
        assert m in messages;
      } else {
        assert messages[n].uid == u;
      }
    }
  }

  lemma {:induction false} InvalidMessagesDoNotParse(messages: seq<Message>, parse: Content -> Parsed, u: Uid)
    ensures u in InvalidUids(messages, parse) <==>
      exists m :: m in messages && m.uid == u && parse(m.content).Unparseable?
  {
    if messages != [] {
      var n := |messages| - 1;
      InvalidMessagesDoNotParse(messages[..n], parse, u);
      assert messages == messages[..n] + [messages[n]];
    }
  }

  /* ---------- The two parsing branches ---------- */

  lemma {:induction false} RefusalPrefix(uids: seq<Uid>, refused: set<Uid>)
    ensures BeforeRefusal(uids, refused) <= uids
    ensures forall u :: u in BeforeRefusal(uids, refused) ==> u !in refused
    ensures |BeforeRefusal(uids, refused)| < |uids| ==> uids[|BeforeRefusal(uids, refused)|] in refused
  {
    if uids != [] {
      RefusalPrefix(uids[..|uids| - 1], refused);
    }
  }

  lemma DisposedOneMore(folders: Folders, uids: seq<Uid>, u: Uid, delete: bool, destination: Folder)
    ensures Disposed(Disposed(folders, uids, delete, destination, {}), [u], delete, destination, {})
      == Disposed(folders, uids + [u], delete, destination, {})
  {
  }

  lemma NothingDisposed(folders: Folders, delete: bool, destination: Folder, refused: set<Uid>)
    ensures Disposed(folders, [], delete, destination, refused) == folders
  {
  }

  lemma OneMoreInvalid(uids: seq<Uid>, u: Uid, refused: set<Uid>)
    ensures BeforeRefusal(uids + [u], refused) ==
      if |BeforeRefusal(uids, refused)| == |uids| && u !in refused then uids + [u] else BeforeRefusal(uids, refused)
  {
    assert (uids + [u])[..|uids|] == uids;
  }

  /** What one more message adds to the parallel branch. */
  lemma ParallelOneMore(s: Settings, rest: seq<Message>, m: Message, parse: Content -> Parsed, seen: set<Key>,
      folders: Folders, refused: set<Uid>)
    requires NoCrash(rest, parse) && !parse(m.content).Crashes?
    ensures var before := ParallelParse(s, rest, parse, seen, folders, refused);
      var after := ParallelParse(s, rest + [m], parse, seen, folders, refused);
      if !before.done then !after.done && after.folders == before.folders
      else match parse(m.content)
           case Parses(report) => after == before.(sorted := Classify(before.sorted, m.uid, report, seen))
           case _ =>
             if s.test then after == before
             else if m.uid in refused then after == before.(done := false)
             else after == before.(folders := Disposed(before.folders, [m.uid], s.deleteInvalid, InvalidFolder, {}))
  {
    hide Disposed, Classify, BeforeRefusal;
    assert (rest + [m])[..|rest|] == rest;
    var invalid := InvalidUids(rest, parse);
    RefusalPrefix(invalid, refused);
    assert |BeforeRefusal(invalid, refused)| == |invalid| ==> BeforeRefusal(invalid, refused) == invalid;
    assert NoCrash(rest + [m], parse);
    if parse(m.content).Unparseable? {
      assert InvalidUids(rest + [m], parse) == invalid + [m.uid];
      OneMoreInvalid(invalid, m.uid, refused);
      DisposedOneMore(folders, invalid, m.uid, s.deleteInvalid, InvalidFolder);
    } else {
      assert InvalidUids(rest + [m], parse) == invalid;
    }
  }

  /** Message by message or all at once: as long as nothing crashes, the parsing phase ends the same way. */
  lemma {:induction false} BranchesAgree(s: Settings, messages: seq<Message>, parse: Content -> Parsed, seen: set<Key>,
      folders: Folders, refused: set<Uid>)
    requires NoCrash(messages, parse)
    ensures var seqn := SequentialParse(s, messages, parse, seen, folders, refused);
      var par := ParallelParse(s, messages, parse, seen, folders, refused);
      seqn.done == par.done && seqn.folders == par.folders && (seqn.done ==> seqn == par)
  {
    if messages == [] {
      NothingDisposed(folders, s.deleteInvalid, InvalidFolder, {});
    } else {
      var n := |messages| - 1;
      var rest, m := messages[..n], messages[n];
      assert m in messages && rest + [m] == messages;
      BranchesAgree(s, rest, parse, seen, folders, refused);
      ParallelOneMore(s, rest, m, parse, seen, folders, refused);
      hide ParallelParse, Disposed, Classify;
    }
  }

  /** The messages before the first one that crashes. */
  function UntilCrash(messages: seq<Message>, parse: Content -> Parsed): (r: seq<Message>) {
    if messages == [] then []
    else
      var n := |messages| - 1;
      var before := UntilCrash(messages[..n], parse);
      if |before| == n && !parse(messages[n].content).Crashes? then messages else before
  }

  lemma {:induction false} UntilCrashPrefix(messages: seq<Message>, parse: Content -> Parsed)
    ensures UntilCrash(messages, parse) <= messages && NoCrash(UntilCrash(messages, parse), parse)
    ensures NoCrash(messages, parse) <==> UntilCrash(messages, parse) == messages
    ensures |UntilCrash(messages, parse)| < |messages| ==>
      parse(messages[|UntilCrash(messages, parse)|].content).Crashes?
  {
    if messages != [] {
      var n := |messages| - 1;
      UntilCrashPrefix(messages[..n], parse);
      if |UntilCrash(messages[..n], parse)| < n {
        assert messages[|UntilCrash(messages[..n], parse)|] in messages;
      } else {
        assert messages == messages[..n] + [messages[n]];
      }
    }
  }

  /** A crash ends the sequential branch where it happens. */
  lemma {:induction false} SequentialStopsAtCrash(s: Settings, messages: seq<Message>, parse: Content -> Parsed,
      seen: set<Key>,
      folders: Folders, refused: set<Uid>)
    requires !NoCrash(messages, parse)
    ensures var seqn := SequentialParse(s, messages, parse, seen, folders, refused);
      !seqn.done && seqn.folders == SequentialParse(s, UntilCrash(messages, parse), parse, seen, folders,
        refused).folders
  {
    var n := |messages| - 1;
    UntilCrashPrefix(messages, parse);
    UntilCrashPrefix(messages[..n], parse);
    if !NoCrash(messages[..n], parse) {
      SequentialStopsAtCrash(s, messages[..n], parse, seen, folders, refused);
    } else {
      assert messages == messages[..n] + [messages[n]];
    }
  }

  /**
   With crashes allowed, the branches leave the mailbox in the same state exactly when there is no crash,
   in test mode, or when the sequential branch disposes of nothing before the first crash.
   */
  lemma BranchesAgreeExactlyWhen(s: Settings, messages: seq<Message>, parse: Content -> Parsed, seen: set<Key>,
      folders: Folders, refused: set<Uid>)
    requires forall m :: m in messages ==> m.uid in folders && folders[m.uid] == Reports
    ensures var seqn := SequentialParse(s, messages, parse, seen, folders, refused);
      var par := ParallelParse(s, messages, parse, seen, folders, refused);
      var early := InvalidUids(UntilCrash(messages, parse), parse);
      (seqn.done == par.done && seqn.folders == par.folders)
        <==> (NoCrash(messages, parse) || s.test || early == [] || early[0] in refused)
  {
    if NoCrash(messages, parse) {
      BranchesAgree(s, messages, parse, seen, folders, refused);
    } else {
      var calm := UntilCrash(messages, parse);
      var early := InvalidUids(calm, parse);
      UntilCrashPrefix(messages, parse);
      SequentialStopsAtCrash(s, messages, parse, seen, folders, refused);
      BranchesAgree(s, calm, parse, seen, folders, refused);
      RefusalPrefix(early, refused);
      var handled := BeforeRefusal(early, refused);
      if handled == [] {
        NothingDisposed(folders, s.deleteInvalid, InvalidFolder, {});
      } else {
        var u := handled[0];
        assert u == early[0] && u in early;
        InvalidMessagesDoNotParse(calm, parse, u);
        var m :| m in calm && m.uid == u;
        assert m in messages;
      }
    }
  }

  /**
   They do disagree: with an invalid message followed by one that crashes, the sequential branch has put the first one
   away by then and the parallel branch has not.
   */
  lemma BranchesCanDisagree(s: Settings)
    requires !s.test
    ensures var messages := [Message(1, 0), Message(2, 1)];
      var parse := content => if content == 0 then Unparseable else Crashes;
      var folders: Folders := map[1 := Reports, 2 := Reports];
      var seqn, par := SequentialParse(s, messages, parse, {}, folders, {}), ParallelParse(s, messages, parse, {},
        folders, {});
      var early := InvalidUids(UntilCrash(messages, parse), parse);
      && (1 in seqn.folders ==> seqn.folders[1] == InvalidFolder) && 1 in par.folders && par.folders[1] == Reports
      && seqn.folders != par.folders && !NoCrash(messages, parse) && early == [1]
  {
    var one, two := [Message(1, 0)], [Message(1, 0), Message(2, 1)];
    var parse := content => if content == 0 then Unparseable else Crashes;
    var folders: Folders := map[1 := Reports, 2 := Reports];
    assert one[..0] == [] && two[..1] == one;
    assert UntilCrash([], parse) == [] && UntilCrash(one, parse) == one && UntilCrash(two, parse) == one;
    assert InvalidUids(one, parse) == InvalidUids([], parse) + [1];
    var after := SequentialParse(s, one, parse, {}, folders, {});
    assert SequentialParse(s, [], parse, {}, folders, {}) == Parsing(NOTHING_SORTED, folders, true);
    assert after == Parsing(NOTHING_SORTED, Disposed(folders, [1], s.deleteInvalid, InvalidFolder, {}), true);
    assert SequentialParse(s, two, parse, {}, folders, {}) == after.(done := false);
    assert two[1] in two;
  }

  /** The number of worker processes does not show: not in the batch, the mailbox, the cache or the counters. */
  lemma RoundIndependentOfWorkers(w: World, s: Settings, r: Round, earlier: Batch, nProcs: int)
    requires NoCrash(Limited(s, r.messages), r.parse)
    ensures RunRound(w, s, r, earlier) == RunRound(w, s.(nProcs := nProcs), r, earlier)
  {
    var messages := Limited(s, r.messages);
    var s' := s.(nProcs := nProcs);
    assert Limited(s', r.messages) == messages;
    SettingsForParsing(s, s', messages, r, w.state);
    BranchesAgree(s, messages, r.parse, w.state.seen, w.state.folders, r.refused);
    var parsing := Parse(s, r, w.state);
    HoldIgnoresWorkers(s, s', w.state.(folders := parsing.folders), parsing.sorted, r.refused);
    hide SequentialParse, ParallelParse, Commit, Hold, Shelved;
  }

  lemma HoldIgnoresWorkers(s: Settings, s': Settings, state: State, sorted: Sorted, refused: set<Uid>)
    requires s' == s.(nProcs := s'.nProcs)
    ensures Shelved(s, state, sorted.Uids(), refused) == Shelved(s', state, sorted.Uids(), refused)
    ensures Hold(s, state, sorted, refused) == Hold(s', state, sorted, refused)
    ensures Commit(s, state, sorted, refused) == Commit(s', state, sorted, refused)
  {
  }

  lemma {:induction false} SettingsForParsing(s: Settings, s': Settings, messages: seq<Message>, r: Round, state: State)
    requires s' == s.(nProcs := s'.nProcs)
    ensures SequentialParse(s, messages, r.parse, state.seen, state.folders, r.refused)
      == SequentialParse(s', messages, r.parse, state.seen, state.folders, r.refused)
  {
    if messages != [] {
      SettingsForParsing(s, s', messages[..|messages| - 1], r, state);
    }
  }

  lemma CallIndependentOfWorkers(w: World, s: Settings, r: Round, again: Option<Round>, nProcs: int)
    requires NoCrash(Limited(s, r.messages), r.parse)
    requires again.Some? ==> NoCrash(Limited(Again(s), again.value.messages), again.value.parse)
    ensures RunCall(w, s, r, again) == RunCall(w, s.(nProcs := nProcs), r, again)
  {
    RoundIndependentOfWorkers(w, s, r, EMPTY_BATCH, nProcs);
    var first := RunRound(w, s, r, EMPTY_BATCH);
    if first.status.Returned? && again.Some? {
      assert Again(s.(nProcs := nProcs)) == Again(s).(nProcs := nProcs);
      RoundIndependentOfWorkers(first.world, Again(s), again.value, first.status.reports, nProcs);
    }
    hide RunRound;
  }

  /* ---------- The invariant of every run ---------- */

  /** The aggregate reports of all committed batches, in order. */
  function CommittedAggregates(history: seq<Entry>): (r: seq<Report>) {
    if history == [] then []
    else
      var e := history[|history| - 1];
      CommittedAggregates(history[..|history| - 1]) + if e.saved then e.batch.aggregate else []
  }

  /** How many unsaved batches in a row have contained the message, since a batch of its was saved or it was shelved. */
  function Streak(history: seq<Entry>, u: Uid): (n: nat) {
    if history == [] then 0
    else
      var e := history[|history| - 1];
      var before := Streak(history[..|history| - 1], u);
      if e.test || u !in e.uids then before
      else if e.saved || u in e.shelved then 0
      else before + 1
  }

  ghost predicate Invariant(w: World) {
    && w.state.seen == KeySet(CommittedAggregates(w.history))
    && Distinct(Keys(CommittedAggregates(w.history)))
    && (forall u :: AttemptsOf(w.state.attempts, u) == Streak(w.history, u))
  }

  /** A freshly started process: an empty cache, no counters, nothing committed. */
  const START := World(State(map[], {}, map[]), [])

  lemma KeySetConcat(a: seq<Report>, b: seq<Report>)
    ensures KeySet(a + b) == KeySet(a) + KeySet(b)
    ensures Keys(a + b) == Keys(a) + Keys(b)
  {
    forall k | k in KeySet(a) + KeySet(b) ensures k in KeySet(a + b) {
      if k in KeySet(a) {
        var i :| 0 <= i < |a| && KeyOf(a[i]) == k;
        assert (a + b)[i] == a[i];
      } else {
        var i :| 0 <= i < |b| && KeyOf(b[i]) == k;
        assert (a + b)[|a| + i] == b[i];
      }
    }
  }

  lemma DistinctConcat(a: seq<Report>, b: seq<Report>)
    requires Distinct(Keys(a)) && Distinct(Keys(b)) && KeySet(a) !! KeySet(b)
    ensures Distinct(Keys(a + b))
  {
    KeySetConcat(a, b);
    forall i, j | 0 <= i < |a| && 0 <= j < |b| ensures Keys(a)[i] != Keys(b)[j] {
      assert KeyOf(a[i]) in KeySet(a) && KeyOf(b[j]) in KeySet(b);
    }
  }

  lemma {:induction false} SequentialSorts(s: Settings, messages: seq<Message>, parse: Content -> Parsed,
      seen: set<Key>,
      folders: Folders, refused: set<Uid>)
    requires SequentialParse(s, messages, parse, seen, folders, refused).done
    ensures NoCrash(messages, parse)
  {
    if messages != [] {
      var n := |messages| - 1;
      SequentialSorts(s, messages[..n], parse, seen, folders, refused);
      assert messages == messages[..n] + [messages[n]];
    }
  }

  /** However it was parsed, a completed round has sorted all of its messages. */
  lemma ParsedRound(s: Settings, r: Round, state: State)
    ensures var messages := Limited(s, r.messages);
      var parsing := Parse(s, r, state);
      parsing.done ==>
        && NoCrash(messages, r.parse)
        && parsing == ParallelParse(s, messages, r.parse, state.seen, state.folders, r.refused)
        && parsing.sorted == ClassifyAll(NOTHING_SORTED, messages, r.parse, state.seen)
  {
    var messages := Limited(s, r.messages);
    if SequentialParse(s, messages, r.parse, state.seen, state.folders, r.refused).done {
      SequentialSorts(s, messages, r.parse, state.seen, state.folders, r.refused);
      BranchesAgree(s, messages, r.parse, state.seen, state.folders, r.refused);
    }
    hide SequentialParse, ClassifyAll, Disposed, BeforeRefusal, InvalidUids;
  }

  lemma CountersFollowStreaks(s: Settings, state: State, sorted: Sorted, refused: set<Uid>, saved: bool,
      history: seq<Entry>, u: Uid)
    requires AttemptsOf(state.attempts, u) == Streak(history, u)
    ensures var entry := Entry(sorted.Uids(), sorted.batch, saved, s.test,
        if saved || s.test then {} else Shelved(s, state, sorted.Uids(), refused));
      var state' := if saved then Commit(s, state, sorted, refused) else Hold(s, state, sorted, refused);
      AttemptsOf(state'.attempts, u) == Streak(history + [entry], u)
  {
    var entry := Entry(sorted.Uids(), sorted.batch, saved, s.test,
      if saved || s.test then {} else Shelved(s, state, sorted.Uids(), refused));
    assert (history + [entry])[..|history|] == history;
    hide Disposed, OverCap;
  }

  /** One round keeps the cache, the committed batches and the counters consistent with each other. */
  lemma RoundKeepsInvariant(w: World, s: Settings, r: Round, earlier: Batch)
    requires Invariant(w)
    ensures Invariant(RunRound(w, s, r, earlier).world)
  {
    var parsing := Parse(s, r, w.state);
    if parsing.done {
      ParsedRound(s, r, w.state);
      var messages, sorted := Limited(s, r.messages), parsing.sorted;
      var state, saved := w.state.(folders := parsing.folders), Persisted(s, r.verdict);
      ClassificationAccounts(messages, r.parse, w.state.seen);
      var w' := RunRound(w, s, r, earlier).world;
      forall u ensures AttemptsOf(w'.state.attempts, u) == Streak(w'.history, u) {
        CountersFollowStreaks(s, state, sorted, r.refused, saved, w.history, u);
      }
      hide Streak, AttemptsOf, Disposed, Parse, ClassifyAll, Keys, KeySet, Distinct, Shelved;
      assert w'.history[..|w.history|] == w.history;
      if saved {
        KeySetConcat(CommittedAggregates(w.history), sorted.batch.aggregate);
        DistinctConcat(CommittedAggregates(w.history), sorted.batch.aggregate);
      } else {
        assert CommittedAggregates(w'.history) == CommittedAggregates(w.history);
      }
    }
  }

  lemma CallKeepsInvariant(w: World, s: Settings, r: Round, again: Option<Round>)
    requires Invariant(w)
    ensures Invariant(RunCall(w, s, r, again).world)
  {
    hide RunRound, Invariant;
    RoundKeepsInvariant(w, s, r, EMPTY_BATCH);
    var first := RunRound(w, s, r, EMPTY_BATCH);
    if first.status.Returned? && again.Some? {
      RoundKeepsInvariant(first.world, Again(s), again.value, first.status.reports);
    }
  }

  /** A run: calls, and in between anything the outside does to the mailbox. */
  datatype Event = Outside(folders: Folders) | Call(settings: Settings, round: Round, again: Option<Round>)

  function Step(w: World, e: Event): World {
    match e
    case Outside(folders) => w.(state := w.state.(folders := folders))
    case Call(s, r, again) => RunCall(w, s, r, again).world
  }

  function Run(events: seq<Event>): World {
    if events == [] then START else Step(Run(events[..|events| - 1]), events[|events| - 1])
  }

  lemma {:induction false} EveryRunKeepsInvariant(events: seq<Event>)
    ensures Invariant(Run(events))
  {
    if events != [] {
      var w, e := Run(events[..|events| - 1]), events[|events| - 1];
      EveryRunKeepsInvariant(events[..|events| - 1]);
      if e.Call? {
        CallKeepsInvariant(w, e.settings, e.round, e.again);
      }
    }
  }

  /** Over all committed batches of any run, no aggregate key occurs twice. */
  lemma CommittedKeysAreDistinct(events: seq<Event>)
    ensures Distinct(Keys(CommittedAggregates(Run(events).history)))
  {
    EveryRunKeepsInvariant(events);
  }

  /** In any run a message's counter is the length of its current streak of unsaved batches. */
  lemma CounterIsStreak(events: seq<Event>, u: Uid)
    ensures AttemptsOf(Run(events).state.attempts, u) == Streak(Run(events).history, u)
  {
    EveryRunKeepsInvariant(events);
  }

  /* ---------- What a round and a call come back with ---------- */

  /** The lists of one kind in all entries put together, in order. */
  function Gathered(entries: seq<Entry>, kind: Kind): seq<Report> {
    if entries == [] then []
    else Gathered(entries[..|entries| - 1], kind) + ListOf(entries[|entries| - 1].batch, kind)
  }

  ghost predicate ReturnsGathered(reports: Batch, entries: seq<Entry>) {
    && reports.aggregate == Gathered(entries, Aggregate)
    && reports.failure == Gathered(entries, Kind.Failure)
    && reports.smtpTls == Gathered(entries, SmtpTls)
  }

  /** How a round that gets past parsing ends: one more entry, and its reports after the earlier ones. */
  ghost predicate RoundEnds(before: seq<Entry>, after: seq<Entry>, s: Settings, r: Round, earlier: Batch,
      status: Status)
  {
    && |after| == |before| + 1 && after[..|before|] == before
    && var e := after[|before|];
    && (e.saved <==> !s.hasCallback || r.verdict == Saved) && e.test == s.test
    && (status == CallbackRaised <==> s.hasCallback && r.verdict == Raised)
    && (status != CallbackRaised ==>
          && status.Returned? && status.persisted == e.saved
          && status.reports.aggregate == earlier.aggregate + e.batch.aggregate
          && status.reports.failure == earlier.failure + e.batch.failure
          && status.reports.smtpTls == earlier.smtpTls + e.batch.smtpTls)
  }

  /** A round is aborted without an entry, or ends with one. */
  lemma RoundReturns(w: World, s: Settings, r: Round, earlier: Batch)
    ensures var o := RunRound(w, s, r, earlier);
      if o.status == ParseAborted then o.world.history == w.history
      else RoundEnds(w.history, o.world.history, s, r, earlier, o.status)
  {
    hide Commit, Hold, Shelved, Parse;
  }

  lemma GatheredOneMore(entries: seq<Entry>, e: Entry, kind: Kind)
    ensures Gathered(entries + [e], kind) == Gathered(entries, kind) + ListOf(e.batch, kind)
    ensures Gathered([e], kind) == ListOf(e.batch, kind)
  {
    assert (entries + [e])[..|entries|] == entries;
    assert [e][..0] == [];
  }

  lemma GatheredByAll(earlier: Batch, entries: seq<Entry>, e: Entry, reports: Batch)
    requires ReturnsGathered(earlier, entries)
    requires reports.aggregate == earlier.aggregate + e.batch.aggregate
    requires reports.failure == earlier.failure + e.batch.failure
    requires reports.smtpTls == earlier.smtpTls + e.batch.smtpTls
    ensures ReturnsGathered(reports, entries + [e])
  {
    GatheredOneMore(entries, e, Aggregate);
    GatheredOneMore(entries, e, Kind.Failure);
    GatheredOneMore(entries, e, SmtpTls);
  }

  lemma EntryGathered(start: seq<Entry>, before: seq<Entry>, after: seq<Entry>, s: Settings, r: Round, earlier: Batch,
      status: Status)
    requires start <= before && ReturnsGathered(earlier, before[|start|..])
    requires RoundEnds(before, after, s, r, earlier, status) && status.Returned?
    ensures ReturnsGathered(status.reports, after[|start|..])
  {
    GatheredByAll(earlier, before[|start|..], after[|before|], status.reports);
    assert after[|start|..] == before[|start|..] + [after[|before|]];
  }

  lemma NothingGathered()
    ensures ReturnsGathered(EMPTY_BATCH, [])
  {
  }

  /** The entries that one call adds, and what it returns of them. */
  ghost predicate CallEnds(before: seq<Entry>, after: seq<Entry>, s: Settings, r: Round, again: Option<Round>,
      status: Status)
  {
    && |before| <= |after| <= |before| + 2 && after[..|before|] == before
    && var added := after[|before|..];
    && (added != [] ==> (added[0].saved <==> !s.hasCallback || r.verdict == Saved))
    && (|added| == 2 ==> !s.test && s.batchSize == 0 && again.Some? && added[0].saved)
    && (!s.test && s.batchSize == 0 && again.Some? && |added| == 1 && added[0].saved ==> status == ParseAborted)
    && (status.Returned? ==>
          && added != [] && ReturnsGathered(status.reports, added)
          && (status.persisted <==> added[|added| - 1].saved))
  }

  /**
   What a call returns: nothing but the reports of the batches it made, each list being those of one or two rounds put
   together; the second round takes place exactly when the first was saved, no batch size is set, the call is no test
   and mail came in.
   */
  lemma CallReturns(w: World, s: Settings, r: Round, again: Option<Round>)
    ensures var o := RunCall(w, s, r, again);
      if s.maxUnsavedRetries < 0 || (s.test && (s.deletes != {} || s.deleteInvalid)) then
        o.status == BadArguments && o.world == w
      else o.status != BadArguments && CallEnds(w.history, o.world.history, s, r, again, o.status)
  {
    hide RunRound, ReturnsGathered, Gathered;
    if s.Accepted() {
      RoundReturns(w, s, r, EMPTY_BATCH);
      var first := RunRound(w, s, r, EMPTY_BATCH);
      if first.status.Returned? {
        NothingGathered();
        assert w.history[|w.history|..] == [];
        EntryGathered(w.history, w.history, first.world.history, s, r, EMPTY_BATCH, first.status);
        if again.Some? {
          RoundReturns(first.world, Again(s), again.value, first.status.reports);
          var o := RunRound(first.world, Again(s), again.value, first.status.reports);
          if o.status.Returned? {
            EntryGathered(w.history, first.world.history, o.world.history, Again(s), again.value, first.status.reports,
              o.status);
          }
        }
      }
    }
  }

  /* ---------- Where messages end up ---------- */

  /** The report itself, or for aggregates a report with its key, is in a committed batch. */
  ghost predicate Committed(report: Report, history: seq<Entry>) {
    match report.kind
    case Aggregate => KeyOf(report) in KeySet(CommittedAggregates(history))
    case Failure => exists k :: 0 <= k < |history| && history[k].saved && report in history[k].batch.failure
    case SmtpTls => exists k :: 0 <= k < |history| && history[k].saved && report in history[k].batch.smtpTls
  }

  /**
   The fate of a message with a valid report in one round: it stays in the reports folder when parsing is
   aborted, in test mode, or when the server refuses; saved, it is put away or deleted and its report is
   committed; unsaved, it stays or, past the cap, is shelved -- and is never deleted.
   */
  ghost predicate Fate(s: Settings, r: Round, w: World, o: Outcome, u: Uid, report: Report) {
    var now := o.world.state.folders;
    if o.status.ParseAborted? || s.test || u in r.refused then u in now && now[u] == Reports
    else if !s.hasCallback || r.verdict == Saved then
      && Committed(report, o.world.history)
      && (if report.kind in s.deletes then u !in now else u in now && now[u] == TypeFolder(report.kind))
    else
      u in now && now[u] == if Streak(w.history, u) + 1 > s.maxUnsavedRetries then UnsavedFolder else Reports
  }

  ghost predicate SameAt(f: Folders, g: Folders, u: Uid) {
    (u in f <==> u in g) && (u in f && u in g ==> f[u] == g[u])
  }

  lemma {:induction false} SequentialMovesOnlyInvalid(s: Settings, messages: seq<Message>, parse: Content -> Parsed,
      seen: set<Key>, folders: Folders, refused: set<Uid>, u: Uid)
    requires u !in InvalidUids(messages, parse)
    ensures SameAt(SequentialParse(s, messages, parse, seen, folders, refused).folders, folders, u)
  {
    if messages != [] {
      SequentialMovesOnlyInvalid(s, messages[..|messages| - 1], parse, seen, folders, refused, u);
    }
  }

  lemma ParsingMovesOnlyInvalid(s: Settings, r: Round, state: State, u: Uid)
    requires u !in InvalidUids(Limited(s, r.messages), r.parse)
    ensures SameAt(Parse(s, r, state).folders, state.folders, u)
  {
    var messages := Limited(s, r.messages);
    SequentialMovesOnlyInvalid(s, messages, r.parse, state.seen, state.folders, r.refused, u);
    RefusalPrefix(InvalidUids(messages, r.parse), r.refused);
    hide SequentialParse, ClassifyAll, InvalidUids;
  }

  /** A message with a valid report is listed under its own kind only, and is not among the invalid ones. */
  lemma ListedOnce(messages: seq<Message>, parse: Content -> Parsed, seen: set<Key>, m: Message)
    requires DistinctUids(messages) && m in messages && parse(m.content).Parses?
    ensures var sorted := ClassifyAll(NOTHING_SORTED, messages, parse, seen);
      && m.uid !in InvalidUids(messages, parse)
      && (forall kind :: m.uid in sorted.UidsOf(kind) <==> kind == parse(m.content).report.kind)
      && InBatch(parse(m.content).report, sorted, seen)
  {
    var sorted := ClassifyAll(NOTHING_SORTED, messages, parse, seen);
    InvalidMessagesDoNotParse(messages, parse, m.uid);
    ClassificationAccounts(messages, parse, seen);
    assert Listed(sorted, m, parse, seen);
    forall kind | m.uid in sorted.UidsOf(kind) ensures kind == parse(m.content).report.kind {
      ListedMessagesParse(messages, parse, seen, kind, m.uid);
    }
    hide ClassifyAll, InvalidUids;
  }

  lemma CommittedByThisRound(w: World, batch: Batch, sorted: Sorted, entry: Entry, report: Report)
    requires Invariant(w) && entry.saved && entry.batch == sorted.batch
    requires sorted.pending == KeySet(sorted.batch.aggregate) && InBatch(report, sorted, w.state.seen)
    ensures Committed(report, w.history + [entry])
  {
    var history := w.history + [entry];
    assert history[|w.history|] == entry && history[..|w.history|] == w.history;
    KeySetConcat(CommittedAggregates(w.history), sorted.batch.aggregate);
  }

  ghost predicate OnlyUnder(sorted: Sorted, u: Uid, kind: Kind) {
    && (u in sorted.aggregateUids <==> kind == Aggregate)
    && (u in sorted.failureUids <==> kind == Kind.Failure)
    && (u in sorted.smtpTlsUids <==> kind == SmtpTls)
  }

  lemma CommitPutsAway(s: Settings, state: State, sorted: Sorted, refused: set<Uid>, u: Uid, kind: Kind)
    requires u in state.folders && state.folders[u] == Reports && OnlyUnder(sorted, u, kind)
    ensures var now := Commit(s, state, sorted, refused).folders;
      if s.test || u in refused then u in now && now[u] == Reports
      else if kind in s.deletes then u !in now
      else u in now && now[u] == TypeFolder(kind)
  {
  }

  lemma HoldShelves(s: Settings, state: State, sorted: Sorted, refused: set<Uid>, u: Uid, kind: Kind)
    requires u in state.folders && state.folders[u] == Reports && OnlyUnder(sorted, u, kind)
    ensures var now := Hold(s, state, sorted, refused).folders;
      u in now && now[u] ==
        if !s.test && u !in refused && AttemptsOf(state.attempts, u) + 1 > s.maxUnsavedRetries then UnsavedFolder
          else Reports
  {
    assert u in sorted.Uids();
  }

  /** In every consistent state, every valid message of a round meets one of the fates above. */
  lemma RoundDecidesFates(w: World, s: Settings, r: Round, earlier: Batch, m: Message)
    requires Invariant(w) && ValidRound(w, r)
    requires m in Limited(s, r.messages) && r.parse(m.content).Parses?
    ensures Fate(s, r, w, RunRound(w, s, r, earlier), m.uid, r.parse(m.content).report)
  {
    var messages, report := Limited(s, r.messages), r.parse(m.content).report;
    assert m in r.messages;
    ListedOnce(messages, r.parse, w.state.seen, m);
    ParsingMovesOnlyInvalid(s, r, w.state, m.uid);
    ParsedRound(s, r, w.state);
    var parsing := Parse(s, r, w.state);
    if parsing.done {
      ClassificationAccounts(messages, r.parse, w.state.seen);
      var sorted := parsing.sorted;
      assert OnlyUnder(sorted, m.uid, report.kind) by {
        assert (m.uid in sorted.UidsOf(Aggregate) <==> report.kind == Aggregate)
          && (m.uid in sorted.UidsOf(Kind.Failure) <==> report.kind == Kind.Failure)
          && (m.uid in sorted.UidsOf(SmtpTls) <==> report.kind == SmtpTls);
      }
      var state := w.state.(folders := parsing.folders);
      CommitPutsAway(s, state, sorted, r.refused, m.uid, report.kind);
      HoldShelves(s, state, sorted, r.refused, m.uid, report.kind);
      if Persisted(s, r.verdict) {
        var entry := Entry(sorted.Uids(), sorted.batch, true, s.test, {});
        CommittedByThisRound(w, earlier, sorted, entry, report);
      }
      assert AttemptsOf(w.state.attempts, m.uid) == Streak(w.history, m.uid);
      hide Parse, ClassifyAll, Streak, Committed, CommittedAggregates, Commit, Hold, Shelved, InBatch, KeySet;
    }
  }

  /** Committing and holding back leave alone what the round did not list. */
  lemma UnlistedUntouched(s: Settings, state: State, sorted: Sorted, refused: set<Uid>, u: Uid)
    requires forall kind :: u !in sorted.UidsOf(kind)
    ensures SameAt(Commit(s, state, sorted, refused).folders, state.folders, u)
    ensures SameAt(Hold(s, state, sorted, refused).folders, state.folders, u)
    ensures AttemptsOf(Commit(s, state, sorted, refused).attempts, u) == AttemptsOf(state.attempts, u)
    ensures AttemptsOf(Hold(s, state, sorted, refused).attempts, u) == AttemptsOf(state.attempts, u)
  {
    assert u !in sorted.UidsOf(Aggregate) && u !in sorted.UidsOf(Kind.Failure) && u !in sorted.UidsOf(SmtpTls);
  }

  lemma ParsingDisposesOfInvalid(s: Settings, r: Round, state: State, m: Message)
    requires m in Limited(s, r.messages) && r.parse(m.content).Unparseable? && m.uid in state.folders
    requires !s.test && Parse(s, r, state).done
    ensures var now := Parse(s, r, state).folders;
      if s.deleteInvalid then m.uid !in now else m.uid in now && now[m.uid] == InvalidFolder
  {
    var messages := Limited(s, r.messages);
    ParsedRound(s, r, state);
    InvalidMessagesDoNotParse(messages, r.parse, m.uid);
    RefusalPrefix(InvalidUids(messages, r.parse), r.refused);
    assert BeforeRefusal(InvalidUids(messages, r.parse), r.refused) == InvalidUids(messages, r.parse);
    hide Parse, ClassifyAll, InvalidUids, BeforeRefusal;
  }

  lemma InvalidUnlisted(messages: seq<Message>, parse: Content -> Parsed, seen: set<Key>, m: Message)
    requires DistinctUids(messages) && m in messages && parse(m.content).Unparseable?
    ensures forall kind :: m.uid !in ClassifyAll(NOTHING_SORTED, messages, parse, seen).UidsOf(kind)
  {
    forall kind ensures m.uid !in ClassifyAll(NOTHING_SORTED, messages, parse, seen).UidsOf(kind) {
      if m.uid in ClassifyAll(NOTHING_SORTED, messages, parse, seen).UidsOf(kind) {
        ListedMessagesParse(messages, parse, seen, kind, m.uid);
      }
    }
    hide ClassifyAll;
  }

  /** A completed round outside test mode gets every unparseable message out of the reports folder. */
  lemma RoundDisposesOfInvalid(w: World, s: Settings, r: Round, earlier: Batch, m: Message)
    requires ValidRound(w, r) && m in Limited(s, r.messages) && r.parse(m.content).Unparseable?
    requires !s.test && !RunRound(w, s, r, earlier).status.ParseAborted?
    ensures var now := RunRound(w, s, r, earlier).world.state.folders;
      if s.deleteInvalid then m.uid !in now else m.uid in now && now[m.uid] == InvalidFolder
  {
    var messages := Limited(s, r.messages);
    var sorted := ClassifyAll(NOTHING_SORTED, messages, r.parse, w.state.seen);
    assert m in r.messages;
    ParsedRound(s, r, w.state);
    ParsingDisposesOfInvalid(s, r, w.state, m);
    InvalidUnlisted(messages, r.parse, w.state.seen, m);
    UnlistedUntouched(s, w.state.(folders := Parse(s, r, w.state).folders), sorted, r.refused, m.uid);
    hide ClassifyAll, Parse, Commit, Hold, Shelved, Limited;
  }

  /** Messages that a round does not list keep their place, and their counters. */
  lemma OthersUntouched(w: World, s: Settings, r: Round, earlier: Batch, u: Uid)
    requires forall m :: m in Limited(s, r.messages) ==> m.uid != u
    ensures var o := RunRound(w, s, r, earlier);
      SameAt(o.world.state.folders, w.state.folders, u)
      && AttemptsOf(o.world.state.attempts, u) == AttemptsOf(w.state.attempts, u)
  {
    var messages := Limited(s, r.messages);
    InvalidMessagesDoNotParse(messages, r.parse, u);
    ParsingMovesOnlyInvalid(s, r, w.state, u);
    ParsedRound(s, r, w.state);
    var sorted := ClassifyAll(NOTHING_SORTED, messages, r.parse, w.state.seen);
    forall kind ensures u !in sorted.UidsOf(kind) {
      if u in sorted.UidsOf(kind) {
        ListedMessagesParse(messages, r.parse, w.state.seen, kind, u);
      }
    }
    UnlistedUntouched(s, w.state.(folders := Parse(s, r, w.state).folders), sorted, r.refused, u);
    hide Parse, ClassifyAll, Commit, Hold, Shelved;
  }

  /** Without a test, parsing ends early exactly when something crashes or an invalid message cannot be disposed of. */
  lemma AbortsExactlyWhen(w: World, s: Settings, r: Round, earlier: Batch)
    ensures RunRound(w, s, r, earlier).status == ParseAborted <==>
      exists m :: m in Limited(s, r.messages) &&
        (r.parse(m.content).Crashes? || (!s.test && r.parse(m.content).Unparseable? && m.uid in r.refused))
  {
    var messages := Limited(s, r.messages);
    var invalid := InvalidUids(messages, r.parse);
    RefusalPrefix(invalid, r.refused);
    var handled := BeforeRefusal(invalid, r.refused);
    forall u ensures u in invalid <==> exists m :: m in messages && m.uid == u && r.parse(m.content).Unparseable? {
      InvalidMessagesDoNotParse(messages, r.parse, u);
    }
    RefusedEndsParsing(s, r, w.state);
    hide Parse, Commit, Hold, Shelved, InvalidUids, BeforeRefusal, Limited;
    if |handled| < |invalid| {
      assert invalid[|handled|] in invalid && invalid[|handled|] in r.refused;
    } else {
      assert handled == invalid;
    }
  }

  lemma RefusedEndsParsing(s: Settings, r: Round, state: State)
    ensures var messages := Limited(s, r.messages);
      var invalid := InvalidUids(messages, r.parse);
      Parse(s, r, state).done <==>
        NoCrash(messages, r.parse) && (s.test || |BeforeRefusal(invalid, r.refused)| == |invalid|)
  {
    var messages := Limited(s, r.messages);
    ParsedRound(s, r, state);
    if NoCrash(messages, r.parse) {
      BranchesAgree(s, messages, r.parse, state.seen, state.folders, r.refused);
    }
    hide SequentialParse, Limited, InvalidUids, BeforeRefusal, ClassifyAll;
  }

  lemma {:induction false} TestParsesInPlace(s: Settings, messages: seq<Message>, parse: Content -> Parsed,
      seen: set<Key>, folders: Folders, refused: set<Uid>)
    requires s.test
    ensures SequentialParse(s, messages, parse, seen, folders, refused).folders == folders
    ensures ParallelParse(s, messages, parse, seen, folders, refused).folders == folders
  {
    if messages != [] {
      TestParsesInPlace(s, messages[..|messages| - 1], parse, seen, folders, refused);
    }
  }

  /** A test moves, deletes and counts nothing. */
  lemma TestTouchesNothing(w: World, s: Settings, r: Round, earlier: Batch)
    requires s.test
    ensures var now := RunRound(w, s, r, earlier).world.state;
      now.folders == w.state.folders && now.attempts == w.state.attempts
  {
    TestParsesInPlace(s, Limited(s, r.messages), r.parse, w.state.seen, w.state.folders, r.refused);
    hide SequentialParse, ParallelParse, Limited;
  }

  /** A round works on the first messages up to the batch size, and on all of them without one or with a start time. */
  lemma BatchSizeDecides(w: World, s: Settings, r: Round, earlier: Batch, i: nat)
    requires Invariant(w) && ValidRound(w, r) && i < |r.messages|
    ensures var o, m := RunRound(w, s, r, earlier), r.messages[i];
      if s.batchSize == 0 || s.since || i < s.batchSize then
        r.parse(m.content).Parses? ==> Fate(s, r, w, o, m.uid, r.parse(m.content).report)
      else
        SameAt(o.world.state.folders, w.state.folders, m.uid)
        && AttemptsOf(o.world.state.attempts, m.uid) == AttemptsOf(w.state.attempts, m.uid)
  {
    var m, messages := r.messages[i], Limited(s, r.messages);
    if s.batchSize == 0 || s.since || i < s.batchSize {
      assert messages[i] == m;
      if r.parse(m.content).Parses? {
        RoundDecidesFates(w, s, r, earlier, m);
      }
    } else {
      forall other | other in messages ensures other.uid != m.uid {
        var k :| 0 <= k < |messages| && messages[k] == other;
        assert r.messages[k].uid != r.messages[i].uid;
      }
      OthersUntouched(w, s, r, earlier, m.uid);
    }
    hide RunRound, Fate, Limited;
  }

  /** The second round of a call fetches since the start of the check if the mailbox keeps time, else ten messages. */
  lemma SecondRoundFetches(s: Settings, messages: seq<Message>)
    ensures Limited(Again(s), messages) == if s.tracksTime || |messages| <= 10 then messages else messages[..10]
    ensures Again(s).(batchSize := s.batchSize, since := s.since) == s
  {
  }

  /** The main safety theorem: the fates hold in both rounds of any call after any run. */
  lemma EveryCallRespectsFates(events: seq<Event>, s: Settings, r: Round, again: Option<Round>)
    requires s.Accepted()
    ensures var w := Run(events);
      var first := RunRound(w, s, r, EMPTY_BATCH);
      && (ValidRound(w, r) ==> forall m :: m in Limited(s, r.messages) && r.parse(m.content).Parses? ==>
            Fate(s, r, w, first, m.uid, r.parse(m.content).report))
      && (RunCall(w, s, r, again) == first
          || (again.Some? && first.status.Returned? && first.status.persisted &&
              var o := RunRound(first.world, Again(s), again.value, first.status.reports);
              && RunCall(w, s, r, again) == o
              && (ValidRound(first.world, again.value) ==>
                    forall m :: m in Limited(Again(s), again.value.messages) && again.value.parse(m.content).Parses? ==>
                      Fate(Again(s), again.value, first.world, o, m.uid, again.value.parse(m.content).report))))
  {
    var w := Run(events);
    EveryRunKeepsInvariant(events);
    var first := RunRound(w, s, r, EMPTY_BATCH);
    if ValidRound(w, r) {
      forall m | m in Limited(s, r.messages) && r.parse(m.content).Parses?
        ensures Fate(s, r, w, first, m.uid, r.parse(m.content).report)
      {
        RoundDecidesFates(w, s, r, EMPTY_BATCH, m);
      }
    }
    if again.Some? && first.status.Returned? {
      RoundKeepsInvariant(w, s, r, EMPTY_BATCH);
      var o := RunRound(first.world, Again(s), again.value, first.status.reports);
      if ValidRound(first.world, again.value) {
        forall m | m in Limited(Again(s), again.value.messages) && again.value.parse(m.content).Parses?
          ensures Fate(Again(s), again.value, first.world, o, m.uid, again.value.parse(m.content).report)
        {
          RoundDecidesFates(first.world, Again(s), again.value, first.status.reports, m);
        }
      }
    }
    hide Fate, RunRound, ValidRound, Run, Invariant;
  }

  /* ---------- Bounded retries ---------- */

  /** The server lets every message go that an unsaved round is to move to Unsaved; it may refuse anything else. */
  ghost predicate Willing(w: World, s: Settings, r: Round) {
    !s.test && !Persisted(s, r.verdict) ==>
      forall m :: m in Limited(s, r.messages) && r.parse(m.content).Parses? && OverCap(s, w.state.attempts, m.uid) ==>
        m.uid !in r.refused
  }

  /** The same cap in every call, and moves to Unsaved that succeed. */
  ghost predicate SteadyCall(w: World, s: Settings, r: Round, again: Option<Round>, cap: nat) {
    s.Accepted() ==>
      var first := RunRound(w, s, r, EMPTY_BATCH);
      && s.maxUnsavedRetries == cap && Willing(w, s, r)
      && (again.Some? && first.status.Returned? && first.status.persisted ==>
        Willing(first.world, Again(s), again.value))
  }

  ghost predicate Steady(events: seq<Event>, cap: nat) {
    forall k :: 0 <= k < |events| && events[k].Call? ==>
      SteadyCall(Run(events[..k]), events[k].settings, events[k].round, events[k].again, cap)
  }

  /** No streak is longer than the cap, and a message is shelved exactly when its streak has reached it. */
  ghost predicate BoundedHistory(history: seq<Entry>, cap: nat) {
    && (forall k, u :: 0 <= k <= |history| ==> Streak(history[..k], u) <= cap)
    && (forall k, u :: 0 <= k < |history| && u in history[k].shelved ==> Streak(history[..k], u) == cap)
  }

  lemma RoundBoundsStreaks(w: World, s: Settings, r: Round, earlier: Batch, cap: nat)
    requires Invariant(w) && BoundedHistory(w.history, cap)
    requires s.maxUnsavedRetries == cap && Willing(w, s, r)
    ensures BoundedHistory(RunRound(w, s, r, earlier).world.history, cap)
  {
    var o := RunRound(w, s, r, earlier);
    ParsedRound(s, r, w.state);
    if !o.status.ParseAborted? {
      var messages := Limited(s, r.messages);
      var history, n := o.world.history, |w.history|;
      var entry := history[n];
      assert history[..n] == w.history && w.history[..n] == w.history;
      forall k, u | 0 <= k <= |history| ensures Streak(history[..k], u) <= cap {
        if k <= n {
          assert history[..k] == w.history[..k];
        } else {
          assert history[..k] == history;
          assert Streak(w.history[..n], u) <= cap;
          if u in entry.uids {
            var m := ListedParses(messages, r.parse, w.state.seen, u);
          }
        }
      }
      forall k, u | 0 <= k < |history| && u in history[k].shelved ensures Streak(history[..k], u) == cap {
        if k < n {
          assert history[..k] == w.history[..k] && history[k] == w.history[k];
        } else {
          assert Streak(w.history[..n], u) <= cap;
        }
      }
    }
  }

  /** A listed message is one of the round's and has parsed. */
  lemma ListedParses(messages: seq<Message>, parse: Content -> Parsed, seen: set<Key>, u: Uid) returns (m: Message)
    requires u in ClassifyAll(NOTHING_SORTED, messages, parse, seen).Uids()
    ensures m in messages && m.uid == u && parse(m.content).Parses?
  {
    var sorted := ClassifyAll(NOTHING_SORTED, messages, parse, seen);
    var kind := if u in sorted.UidsOf(Aggregate) then Aggregate
      else if u in sorted.UidsOf(Kind.Failure) then Kind.Failure else SmtpTls;
    ListedMessagesParse(messages, parse, seen, kind, u);
    m :| m in messages && m.uid == u && parse(m.content).Parses? && parse(m.content).report.kind == kind;
  }

  lemma CallBoundsStreaks(w: World, s: Settings, r: Round, again: Option<Round>, cap: nat)
    requires Invariant(w) && BoundedHistory(w.history, cap) && SteadyCall(w, s, r, again, cap)
    ensures BoundedHistory(RunCall(w, s, r, again).world.history, cap)
  {
    hide Invariant, BoundedHistory, Willing, RunRound;
    if s.Accepted() {
      RoundBoundsStreaks(w, s, r, EMPTY_BATCH, cap);
      RoundKeepsInvariant(w, s, r, EMPTY_BATCH);
      var first := RunRound(w, s, r, EMPTY_BATCH);
      if again.Some? && first.status.Returned? && first.status.persisted {
        RoundBoundsStreaks(first.world, Again(s), again.value, first.status.reports, cap);
      }
    }
  }

  /**
   If moves to Unsaved never fail, every message's counter stays within the cap over the whole run, and a message is
   shelved at its (cap + 1)-st unsaved batch in a row, never later and never sooner.
   */
  lemma {:induction false} RetriesAreBounded(events: seq<Event>, cap: nat)
    requires Steady(events, cap)
    ensures BoundedHistory(Run(events).history, cap)
    ensures forall u :: AttemptsOf(Run(events).state.attempts, u) <= cap
  {
    if events != [] {
      var n := |events| - 1;
      var w, e := Run(events[..n]), events[n];
      assert Steady(events[..n], cap) by {
        assert forall k :: 0 <= k < n ==> events[..n][..k] == events[..k];
      }
      RetriesAreBounded(events[..n], cap);
      EveryRunKeepsInvariant(events[..n]);
      if e.Call? && e.settings.Accepted() {
        assert SteadyCall(w, e.settings, e.round, e.again, cap);
        CallBoundsStreaks(w, e.settings, e.round, e.again, cap);
      }
    }
    EveryRunKeepsInvariant(events);
    var w := Run(events);
    assert w.history[..|w.history|] == w.history;
    hide RunRound, Streak;
  }

  /* ---------- Retries and duplicates ---------- */

  /** An unsaved or aborted round leaves the dedup cache alone, so the same messages make the same batch again. */
  lemma RetryMakesSameBatch(w: World, s: Settings, r: Round, earlier: Batch, s': Settings, r': Round)
    requires RunRound(w, s, r, earlier).status.ParseAborted? || !Persisted(s, r.verdict)
    ensures var w' := RunRound(w, s, r, earlier).world;
      && w'.state.seen == w.state.seen
      && (Limited(s', r'.messages) == Limited(s, r.messages) && r'.parse == r.parse
          && Parse(s, r, w.state).done && Parse(s', r', w'.state).done ==>
            Parse(s', r', w'.state).sorted == Parse(s, r, w.state).sorted)
  {
    ParsedRound(s, r, w.state);
    ParsedRound(s', r', RunRound(w, s, r, earlier).world.state);
    hide Parse, ClassifyAll;
  }

  /** Two reports share a dedup key exactly when moving an underscore between name and id makes them equal. */
  lemma KeysCollideExactlyWhen(a: Report, b: Report)
    requires |a.org| <= |b.org|
    ensures KeyOf(a) == KeyOf(b) <==>
      || (a.org == b.org && a.id == b.id)
      || (exists mid: string :: b.org == a.org + "_" + mid && a.id == mid + "_" + b.id)
  {
    if mid: string :| b.org == a.org + "_" + mid && a.id == mid + "_" + b.id {
      assert KeyOf(a) == a.org + "_" + mid + "_" + b.id == KeyOf(b);
    }
    if KeyOf(a) == KeyOf(b) {
      var n := |a.org|;
      assert KeyOf(a)[..n] == a.org && KeyOf(b)[..n] == b.org[..n];
      assert KeyOf(a)[n + 1..] == a.id;
      if |b.org| == n {
        assert KeyOf(b)[n + 1..] == b.id;
      } else {
        assert KeyOf(a)[n] == '_' && KeyOf(b)[n] == b.org[n];
        var mid := b.org[n + 1..];
        assert b.org == a.org + "_" + mid;
        assert KeyOf(b)[n + 1..] == mid + "_" + b.id;
      }
    }
  }

  /** Two aggregate reports that share a dedup key although their names or ids differ. */
  predicate Collide(a: Report, b: Report) {
    a.kind == b.kind == Aggregate && KeyOf(a) == KeyOf(b) && !(a.org == b.org && a.id == b.id)
  }

  /** There are such pairs. */
  lemma CollisionsExist(body: nat, body': nat)
    ensures Collide(Report(Aggregate, "a_b", "c", body), Report(Aggregate, "a", "b_c", body'))
  {
    assert KeyOf(Report(Aggregate, "a_b", "c", body)) == "a_b_c" == KeyOf(Report(Aggregate, "a", "b_c", body'));
  }

  /** A fetch of one message, whose report the callback saves. */
  function OneSaved(uid: Uid, report: Report): Round {
    Round([Message(uid, 0)], _ => Parses(report), Saved, {})
  }

  /** Two messages arrive and the first one's report is saved. */
  function FirstSaved(s: Settings, report: Report): seq<Event> {
    [Outside(map[1 := Reports, 2 := Reports]), Call(s, OneSaved(1, report), None)]
  }

  lemma OneSorted(s: Settings, uid: Uid, report: Report, seen: set<Key>)
    requires report.kind == Aggregate
    ensures var r := OneSaved(uid, report);
      && Limited(s, r.messages) == r.messages && NoCrash(r.messages, r.parse) && InvalidUids(r.messages, r.parse) == []
      && ClassifyAll(NOTHING_SORTED, r.messages, r.parse, seen).batch.aggregate ==
        if KeyOf(report) in seen then [] else [report]
  {
    var r := OneSaved(uid, report);
    assert r.messages[..0] == [];
    assert ClassifyAll(NOTHING_SORTED, r.messages, r.parse, seen) == Classify(NOTHING_SORTED, uid, report, seen);
  }

  /** The process once the first report is saved. */
  lemma AfterFirstSaved(s: Settings, a: Report)
    requires a.kind == Aggregate && s.Accepted()
    ensures var w := Run(FirstSaved(s, a));
      && Invariant(w) && CommittedAggregates(w.history) == [a]
      && 2 in w.state.folders && w.state.folders[2] == Reports && KeyOf(a) in w.state.seen
  {
    var events, r := FirstSaved(s, a), OneSaved(1, a);
    var w := World(State(map[1 := Reports, 2 := Reports], {}, map[]), []);
    assert Run(events[..1]) == w by {
      assert events[..1][..0] == [];
    }
    assert Run(events) == RunRound(w, s, r, EMPTY_BATCH).world;
    NothingCommitted(w.state.folders);
    OneSorted(s, 1, a, {});
    EveryRunKeepsInvariant(events);
    assert KeyOf(a) in KeySet([a]) by {
      assert [a][0] == a;
    }
    hide Run, RunRound, ClassifyAll, InvalidUids, NoCrash, Limited, CommittedAggregates, KeyOf, KeySet, Streak;
    SavedRoundCommits(w, s, r, EMPTY_BATCH);
    OthersUntouched(w, s, r, EMPTY_BATCH, 2);
  }

  /**
   So, for every pair that collides and whatever the settings, a message can be put away although its own report, as
   opposed to its key, is in no batch: the second message leaves the reports folder, and only the first one's report
   is committed.
   */
  lemma CollidingReportIsDropped(s: Settings, a: Report, b: Report)
    requires Collide(a, b) && s.Accepted() && !s.test
    ensures var w, r := Run(FirstSaved(s, a)), OneSaved(2, b);
      var o := RunRound(w, s, r, EMPTY_BATCH);
      && ValidRound(w, r) && Limited(s, r.messages) == r.messages
      && CommittedAggregates(o.world.history) == [a]
      && (if Aggregate in s.deletes then 2 !in o.world.state.folders
          else 2 in o.world.state.folders && o.world.state.folders[2] == TypeFolder(Aggregate))
  {
    var w, r := Run(FirstSaved(s, a)), OneSaved(2, b);
    AfterFirstSaved(s, a);
    OneSorted(s, 2, b, w.state.seen);
    hide Run, RunRound, ClassifyAll, InvalidUids, NoCrash, Limited, CommittedAggregates, KeyOf, Invariant, Fate;
    SavedRoundCommits(w, s, r, EMPTY_BATCH);
    RoundDecidesFates(w, s, r, EMPTY_BATCH, r.messages[0]);
    FateOfSaved(s, r, w, RunRound(w, s, r, EMPTY_BATCH), 2, b);
  }

  lemma NothingCommitted(folders: Folders)
    ensures Invariant(World(State(folders, {}, map[]), [])) && CommittedAggregates([]) == []
  {
  }

  lemma FateOfSaved(s: Settings, r: Round, w: World, o: Outcome, u: Uid, report: Report)
    requires Fate(s, r, w, o, u, report) && !o.status.ParseAborted? && !s.test && u !in r.refused && r.verdict == Saved
    ensures var now := o.world.state.folders;
      if report.kind in s.deletes then u !in now else u in now && now[u] == TypeFolder(report.kind)
  {
  }

  /** A saved round without invalid messages adds its aggregate reports to the committed ones. */
  lemma SavedRoundCommits(w: World, s: Settings, r: Round, earlier: Batch)
    requires r.verdict == Saved && NoCrash(Limited(s, r.messages), r.parse) &&
      InvalidUids(Limited(s, r.messages), r.parse) == []
    ensures var o, messages := RunRound(w, s, r, earlier), Limited(s, r.messages);
      && !o.status.ParseAborted?
      && CommittedAggregates(o.world.history) == CommittedAggregates(w.history)
        + ClassifyAll(NOTHING_SORTED, messages, r.parse, w.state.seen).batch.aggregate
  {
    var messages := Limited(s, r.messages);
    BranchesAgree(s, messages, r.parse, w.state.seen, w.state.folders, r.refused);
    assert BeforeRefusal([], r.refused) == [];
    ParsedRound(s, r, w.state);
    var o := RunRound(w, s, r, earlier);
    assert o.world.history[..|w.history|] == w.history;
  }

  /* ---------- Exactly when reports are dropped for their key ---------- */

  ghost predicate NoCollision(reports: iset<Report>) {
    forall a, b :: a in reports && b in reports ==> !Collide(a, b)
  }

  /** Every aggregate report that a round parses is one of `reports`. */
  ghost predicate RoundFrom(r: Round, reports: iset<Report>) {
    forall m :: m in r.messages && r.parse(m.content).Parses? && r.parse(m.content).report.kind == Aggregate ==>
      r.parse(m.content).report in reports
  }

  ghost predicate RunFrom(events: seq<Event>, reports: iset<Report>) {
    forall k :: 0 <= k < |events| && events[k].Call? ==>
      RoundFrom(events[k].round, reports) && (events[k].again.Some? ==> RoundFrom(events[k].again.value, reports))
  }

  ghost predicate CommittedFrom(w: World, reports: iset<Report>) {
    forall a :: a in CommittedAggregates(w.history) ==> a in reports && a.kind == Aggregate
  }

  lemma {:induction false} BatchFrom(messages: seq<Message>, parse: Content -> Parsed, seen: set<Key>,
      reports: iset<Report>)
    requires forall m :: m in messages && parse(m.content).Parses? && parse(m.content).report.kind == Aggregate ==>
      parse(m.content).report in reports
    ensures forall a :: a in ClassifyAll(NOTHING_SORTED, messages, parse, seen).batch.aggregate ==>
      a in reports && a.kind == Aggregate
  {
    if messages != [] {
      BatchFrom(messages[..|messages| - 1], parse, seen, reports);
    }
  }

  lemma RoundKeepsFrom(w: World, s: Settings, r: Round, earlier: Batch, reports: iset<Report>)
    requires CommittedFrom(w, reports) && RoundFrom(r, reports)
    ensures CommittedFrom(RunRound(w, s, r, earlier).world, reports)
  {
    ParsedRound(s, r, w.state);
    BatchFrom(Limited(s, r.messages), r.parse, w.state.seen, reports);
    var o := RunRound(w, s, r, earlier);
    if !o.status.ParseAborted? {
      assert o.world.history[..|w.history|] == w.history;
    }
  }

  lemma {:induction false} RunKeepsFrom(events: seq<Event>, reports: iset<Report>)
    requires RunFrom(events, reports)
    ensures CommittedFrom(Run(events), reports)
  {
    if events != [] {
      var n := |events| - 1;
      RunKeepsFrom(events[..n], reports);
      var w, e := Run(events[..n]), events[n];
      if e.Call? {
        RoundKeepsFrom(w, e.settings, e.round, EMPTY_BATCH, reports);
        var first := RunRound(w, e.settings, e.round, EMPTY_BATCH);
        if first.status.Returned? && e.again.Some? {
          RoundKeepsFrom(first.world, Again(e.settings), e.again.value, first.status.reports, reports);
        }
      }
    }
    hide RunRound;
  }

  /** The message is neither in the reports folder nor held in Unsaved. */
  predicate PutAway(folders: Folders, u: Uid) {
    u !in folders || folders[u] !in {Reports, UnsavedFolder}
  }

  /** One of the reports has the given report's name and id. */
  ghost predicate HasOwn(reports: seq<Report>, report: Report) {
    exists a :: a in reports && a.org == report.org && a.id == report.id
  }

  lemma OwnReportInRound(w: World, s: Settings, r: Round, earlier: Batch, m: Message, reports: iset<Report>)
    requires Invariant(w) && CommittedFrom(w, reports) && RoundFrom(r, reports) && NoCollision(reports)
    requires ValidRound(w, r) && m in Limited(s, r.messages)
    requires r.parse(m.content).Parses? && r.parse(m.content).report.kind == Aggregate
    requires PutAway(RunRound(w, s, r, earlier).world.state.folders, m.uid)
    ensures HasOwn(CommittedAggregates(RunRound(w, s, r, earlier).world.history), r.parse(m.content).report)
  {
    RoundDecidesFates(w, s, r, earlier, m);
    RoundKeepsFrom(w, s, r, earlier, reports);
    hide RunRound;
    var committed := CommittedAggregates(RunRound(w, s, r, earlier).world.history);
    var report := r.parse(m.content).report;
    assert KeyOf(report) in KeySet(committed);
    var k :| 0 <= k < |committed| && KeyOf(committed[k]) == KeyOf(report);
    assert committed[k] in committed && committed[k] in reports && !Collide(committed[k], report);
  }

  ghost predicate OwnCommitted(r: Round, w: World, m: Message) {
    r.parse(m.content).Parses? && r.parse(m.content).report.kind == Aggregate && PutAway(w.state.folders, m.uid) ==>
      HasOwn(CommittedAggregates(w.history), r.parse(m.content).report)
  }

  lemma OwnIfPutAway(w: World, s: Settings, r: Round, earlier: Batch, m: Message, reports: iset<Report>)
    requires Invariant(w) && CommittedFrom(w, reports) && RoundFrom(r, reports) && NoCollision(reports)
    ensures ValidRound(w, r) && m in Limited(s, r.messages) ==> OwnCommitted(r, RunRound(w, s, r, earlier).world, m)
  {
    if ValidRound(w, r) && m in Limited(s, r.messages) && r.parse(m.content).Parses?
      && r.parse(m.content).report.kind == Aggregate && PutAway(RunRound(w, s, r, earlier).world.state.folders, m.uid)
    {
      OwnReportInRound(w, s, r, earlier, m, reports);
    }
    hide RunRound, ValidRound, Limited;
  }

  /** In either round of the call after a run, a message is put away only if its own report is committed. */
  ghost predicate CallKeepsOwn(events: seq<Event>, s: Settings, r: Round, again: Option<Round>, m: Message) {
    var w := Run(events);
    var first := RunRound(w, s, r, EMPTY_BATCH);
    && (ValidRound(w, r) && m in Limited(s, r.messages) ==> OwnCommitted(r, first.world, m))
    && (again.Some? && first.status.Returned? ==>
          var o := RunRound(first.world, Again(s), again.value, first.status.reports);
          ValidRound(first.world, again.value) && m in Limited(Again(s), again.value.messages) ==>
            OwnCommitted(again.value, o.world, m))
  }

  /**
   As long as no two aggregate reports of a run collide, a message with an aggregate report is put away only if a
   report with its own name and id is committed, in either round of the call.
   */
  lemma OwnReportIsCommitted(events: seq<Event>, s: Settings, r: Round, again: Option<Round>, reports: iset<Report>,
      m: Message)
    requires RunFrom(events + [Call(s, r, again)], reports) && NoCollision(reports)
    ensures CallKeepsOwn(events, s, r, again, m)
  {
    var w := Run(events);
    var all := events + [Call(s, r, again)];
    assert forall k :: 0 <= k < |events| ==> all[k] == events[k];
    assert all[|events|] == Call(s, r, again);
    RunKeepsFrom(events, reports);
    EveryRunKeepsInvariant(events);
    hide RunRound, Run, Invariant, ValidRound, CommittedFrom, RoundFrom, NoCollision, Limited;
    var first := RunRound(w, s, r, EMPTY_BATCH);
    OwnIfPutAway(w, s, r, EMPTY_BATCH, m, reports);
    RoundKeepsFrom(w, s, r, EMPTY_BATCH, reports);
    RoundKeepsInvariant(w, s, r, EMPTY_BATCH);
    if again.Some? && first.status.Returned? {
      OwnIfPutAway(first.world, Again(s), again.value, first.status.reports, m, reports);
    }
  }

  /** With a collision, in contrast, the call that fetches the second message drops its report. */
  lemma CollisionDropsOwn(s: Settings, a: Report, b: Report, reports: iset<Report>)
    requires Collide(a, b) && a in reports && b in reports && s.Accepted() && !s.test
    ensures RunFrom(FirstSaved(s, a) + [Call(s, OneSaved(2, b), None)], reports)
    ensures !CallKeepsOwn(FirstSaved(s, a), s, OneSaved(2, b), None, Message(2, 0))
  {
    CollidingReportIsDropped(s, a, b);
    assert RoundFrom(OneSaved(1, a), reports) && RoundFrom(OneSaved(2, b), reports);
    assert !HasOwn([a], b);
    assert OneSaved(2, b).messages[0] == Message(2, 0);
    hide RunRound, Run, ValidRound, Limited, CommittedAggregates, HasOwn, RoundFrom, Collide;
  }

  /** Every call after every run whose aggregate reports are among `reports` puts away messages for their own sake. */
  ghost predicate EveryRunKeepsOwn(s: Settings, reports: iset<Report>) {
    forall events, r, again, m :: RunFrom(events + [Call(s, r, again)], reports) ==>
      CallKeepsOwn(events, s, r, again, m)
  }

  /**
   The exact condition: whatever the settings, every run drawn from a set of reports puts away only messages whose own
   report is committed if and only if no two aggregate reports of the set collide.
   */
  lemma OwnReportsExactlyWhen(s: Settings, reports: iset<Report>)
    requires s.Accepted() && !s.test
    ensures EveryRunKeepsOwn(s, reports) <==> NoCollision(reports)
  {
    hide RunFrom, CallKeepsOwn, Collide;
    if NoCollision(reports) {
      forall events, r, again, m | RunFrom(events + [Call(s, r, again)], reports)
        ensures CallKeepsOwn(events, s, r, again, m)
      {
        OwnReportIsCommitted(events, s, r, again, reports, m);
      }
    } else {
      var a, b :| a in reports && b in reports && Collide(a, b);
      CollisionDropsOwn(s, a, b, reports);
      assert !(RunFrom(FirstSaved(s, a) + [Call(s, OneSaved(2, b), None)], reports)
        ==> CallKeepsOwn(FirstSaved(s, a), s, OneSaved(2, b), None, Message(2, 0)));
    }
  }
}
