/**
 What a check of a report mailbox does, as functions on values
 (`get_dmarc_reports_from_mailbox` and its helpers in parsedmarc/__init__.py).

 A round is one fetch of messages: classify them, ask the save callback, then commit or hold back. A call
 is one round, or two when new mail arrived meanwhile and no batch size is set. What the outside world
 decides is a parameter of the round: the messages fetched, how each parses, what the callback answers,
 and which moves and deletions the mail server refuses.
 */
module MailboxSpec {
  import opened Wrappers

  type Uid = nat
  type Content = nat
  type Key = string

  datatype Kind = Aggregate | Failure | SmtpTls

  datatype Report = Report(kind: Kind, org: string, id: string, body: nat)

  /** What parsing a message yields: a report, a `ParserError`, or any other exception. */
  datatype Parsed = Parses(report: Report) | Unparseable | Crashes

  datatype Message = Message(uid: Uid, content: Content)

  datatype Folder = Reports | TypeFolder(kind: Kind) | InvalidFolder | UnsavedFolder | Elsewhere

  /** Where each message is; a deleted message is nowhere. */
  type Folders = map<Uid, Folder>

  datatype Batch = Batch(aggregate: seq<Report>, failure: seq<Report>, smtpTls: seq<Report>)

  const EMPTY_BATCH := Batch([], [], [])

  function Append(a: Batch, b: Batch): Batch {
    Batch(a.aggregate + b.aggregate, a.failure + b.failure, a.smtpTls + b.smtpTls)
  }

  /** The lists one round fills while it parses. */
  datatype Sorted = Sorted(batch: Batch, aggregateUids: seq<Uid>, failureUids: seq<Uid>, smtpTlsUids: seq<Uid>,
    pending: set<Key>) {

    function Uids(): seq<Uid> { aggregateUids + failureUids + smtpTlsUids }

    function UidsOf(kind: Kind): seq<Uid> {
      match kind case Aggregate => aggregateUids case Failure => failureUids case SmtpTls => smtpTlsUids
    }
  }

  const NOTHING_SORTED := Sorted(EMPTY_BATCH, [], [], [], {})

  datatype Settings = Settings(test: bool, deletes: set<Kind>, deleteInvalid: bool, batchSize: nat, since: bool,
    tracksTime: bool, maxUnsavedRetries: int, nProcs: int, hasCallback: bool) {

    /** The argument checks that precede everything else. */
    predicate Accepted() {
      !(test && (deletes != {} || deleteInvalid)) && maxUnsavedRetries >= 0
    }
  }

  datatype Verdict = Saved | NotSaved | Raised

  datatype Round = Round(messages: seq<Message>, parse: Content -> Parsed, verdict: Verdict, refused: set<Uid>)

  datatype State = State(folders: Folders, seen: set<Key>, attempts: map<Uid, nat>)

  /* ---------- Classification ---------- */

  function KeyOf(report: Report): Key {
    report.org + "_" + report.id
  }

  /** Adds one parsed report to the round's lists; a duplicate aggregate report is dropped, its message is not. */
  function Classify(acc: Sorted, uid: Uid, report: Report, seen: set<Key>): Sorted {
    match report.kind
    case Aggregate =>
      var acc' := acc.(aggregateUids := acc.aggregateUids + [uid]);
      if KeyOf(report) in seen || KeyOf(report) in acc.pending then acc'
      else acc'.(pending := acc.pending + {KeyOf(report)},
                 batch := acc.batch.(aggregate := acc.batch.aggregate + [report]))
    case Failure =>
      acc.(failureUids := acc.failureUids + [uid], batch := acc.batch.(failure := acc.batch.failure + [report]))
    case SmtpTls =>
      acc.(smtpTlsUids := acc.smtpTlsUids + [uid], batch := acc.batch.(smtpTls := acc.batch.smtpTls + [report]))
  }

  function ClassifyAll(acc: Sorted, messages: seq<Message>, parse: Content -> Parsed, seen: set<Key>): Sorted {
    if messages == [] then acc
    else
      var n := |messages| - 1;
      var acc' := ClassifyAll(acc, messages[..n], parse, seen);
      match parse(messages[n].content)
      case Parses(report) => Classify(acc', messages[n].uid, report, seen)
      case _ => acc'
  }

  /** The messages that do not parse, in fetch order. */
  function InvalidUids(messages: seq<Message>, parse: Content -> Parsed): (r: seq<Uid>) {
    if messages == [] then []
    else
      var n := |messages| - 1;
      InvalidUids(messages[..n], parse) + if parse(messages[n].content).Unparseable? then [messages[n].uid] else []
  }

  predicate NoCrash(messages: seq<Message>, parse: Content -> Parsed) {
    forall m :: m in messages ==> !parse(m.content).Crashes?
  }

  /* ---------- Moving and deleting ---------- */

  /** Every message of `uids` that the server does not refuse is deleted, or moved to `destination`. */
  function Disposed(folders: Folders, uids: seq<Uid>, delete: bool, destination: Folder,
      refused: set<Uid>): (r: Folders) {
    map u | u in folders && !(delete && u in uids && u !in refused)
      :: if u in uids && u !in refused then destination else folders[u]
  }

  /** The invalid messages that are dealt with before the server first refuses one; a refusal ends the call. */
  function BeforeRefusal(uids: seq<Uid>, refused: set<Uid>): (r: seq<Uid>) {
    if uids == [] then []
    else
      var n := |uids| - 1;
      var handled := BeforeRefusal(uids[..n], refused);
      if |handled| == n && uids[n] !in refused then uids else handled
  }

  /* ---------- The parsing phase ---------- */

  /** `done` is false when an exception escapes; then only what happened to the mailbox matters. */
  datatype Parsing = Parsing(sorted: Sorted, folders: Folders, done: bool)

  /** One message after the other, an invalid one being disposed of as it is found. */
  function SequentialParse(s: Settings, messages: seq<Message>, parse: Content -> Parsed, seen: set<Key>,
      folders: Folders, refused: set<Uid>): Parsing
  {
    if messages == [] then Parsing(NOTHING_SORTED, folders, true)
    else
      var n := |messages| - 1;
      var before := SequentialParse(s, messages[..n], parse, seen, folders, refused);
      var m := messages[n];
      if !before.done then before
      else match parse(m.content)
           case Parses(report) => before.(sorted := Classify(before.sorted, m.uid, report, seen))
           case Crashes => before.(done := false)
           case Unparseable =>
             if s.test then before
             else if m.uid in refused then before.(done := false)
             else before.(folders := Disposed(before.folders, [m.uid], s.deleteInvalid, InvalidFolder, {}))
  }

  /** All messages first, through the worker pool; invalid ones are disposed of after the last result. */
  function ParallelParse(s: Settings, messages: seq<Message>, parse: Content -> Parsed, seen: set<Key>,
      folders: Folders, refused: set<Uid>): Parsing
  {
    if !NoCrash(messages, parse) then Parsing(NOTHING_SORTED, folders, false)
    else
      var sorted := ClassifyAll(NOTHING_SORTED, messages, parse, seen);
      if s.test then Parsing(sorted, folders, true)
      else
        var invalid := InvalidUids(messages, parse);
        var handled := BeforeRefusal(invalid, refused);
        Parsing(sorted, Disposed(folders, handled, s.deleteInvalid, InvalidFolder, {}), |handled| == |invalid|)
  }

  /** The messages a round works on. */
  function Limited(s: Settings, messages: seq<Message>): (r: seq<Message>) {
    if s.batchSize != 0 && !s.since && s.batchSize < |messages| then messages[..s.batchSize] else messages
  }

  function Parse(s: Settings, r: Round, state: State): Parsing {
    var messages := Limited(s, r.messages);
    if s.nProcs > 1 && |messages| > 1
    then ParallelParse(s, messages, r.parse, state.seen, state.folders, r.refused)
    else SequentialParse(s, messages, r.parse, state.seen, state.folders, r.refused)
  }

  /* ---------- Committing and holding back ---------- */

  function Persisted(s: Settings, verdict: Verdict): bool {
    !s.hasCallback || verdict == Saved
  }

  function AttemptsOf(attempts: map<Uid, nat>, uid: Uid): nat {
    if uid in attempts then attempts[uid] else 0
  }

  function Without(attempts: map<Uid, nat>, uids: seq<Uid>): (r: map<Uid, nat>) {
    map u | u in attempts && u !in uids :: attempts[u]
  }

  /** A saved batch: its keys are remembered; outside test mode counters are dropped and messages put away. */
  function Commit(s: Settings, state: State, sorted: Sorted, refused: set<Uid>): State {
    var seen := state.seen + sorted.pending;
    if s.test then state.(seen := seen)
    else
      var f1 := Disposed(state.folders, sorted.aggregateUids, Aggregate in s.deletes, TypeFolder(Aggregate), refused);
      var f2 := Disposed(f1, sorted.failureUids, Kind.Failure in s.deletes, TypeFolder(Kind.Failure), refused);
      var f3 := Disposed(f2, sorted.smtpTlsUids, SmtpTls in s.deletes, TypeFolder(SmtpTls), refused);
      State(f3, seen, Without(state.attempts, sorted.Uids()))
  }

  /** The held-back messages whose retries have run out. */
  predicate OverCap(s: Settings, attempts: map<Uid, nat>, uid: Uid) {
    AttemptsOf(attempts, uid) + 1 > s.maxUnsavedRetries
  }

  /** The over-cap messages that really are moved out of the retry loop. */
  function Shelved(s: Settings, state: State, uids: seq<Uid>, refused: set<Uid>): (r: set<Uid>) {
    set u | u in uids && OverCap(s, state.attempts, u) && u !in refused
  }

  function Bumped(attempts: map<Uid, nat>, uids: seq<Uid>): (r: map<Uid, nat>) {
    map u | u in attempts.Keys + (set v | v in uids) :: AttemptsOf(attempts, u) + if u in uids then 1 else 0
  }

  function Moved(folders: Folders, uids: set<Uid>, destination: Folder): (r: Folders) {
    map u | u in folders :: if u in uids then destination else folders[u]
  }

  /** An unsaved batch: every message counts one more failed attempt; the over-cap ones go to Unsaved. */
  function Hold(s: Settings, state: State, sorted: Sorted, refused: set<Uid>): State {
    if s.test then state
    else
      var shelved := Shelved(s, state, sorted.Uids(), refused);
      State(Moved(state.folders, shelved, UnsavedFolder), state.seen, Bumped(state.attempts, sorted.Uids()) - shelved)
  }

  /* ---------- Rounds and calls, with their history ---------- */

  /** What one callback consultation was about and how it ended. */
  datatype Entry = Entry(uids: seq<Uid>, batch: Batch, saved: bool, test: bool, shelved: set<Uid>)

  datatype World = World(state: State, history: seq<Entry>)

  datatype Status = BadArguments | ParseAborted | CallbackRaised | Returned(reports: Batch, persisted: bool)

  datatype Outcome = Outcome(world: World, status: Status)

  function RunRound(w: World, s: Settings, r: Round, earlier: Batch): Outcome {
    var parsing := Parse(s, r, w.state);
    var parsed := w.state.(folders := parsing.folders);
    if !parsing.done then Outcome(w.(state := parsed), ParseAborted)
    else
      var sorted := parsing.sorted;
      var saved := Persisted(s, r.verdict);
      var entry := Entry(sorted.Uids(), sorted.batch, saved, s.test,
                         if saved || s.test then {} else Shelved(s, parsed, sorted.Uids(), r.refused));
      var state := if saved then Commit(s, parsed, sorted, r.refused) else Hold(s, parsed, sorted, r.refused);
      Outcome(World(state, w.history + [entry]),
              if s.hasCallback && r.verdict == Raised then CallbackRaised
              else Returned(Append(earlier, sorted.batch), saved))
  }

  /** The recursive call fetches without a batch size of its own, so it gets the default one. */
  const DEFAULT_BATCH_SIZE: nat := 10

  function Again(s: Settings): Settings {
    s.(batchSize := DEFAULT_BATCH_SIZE, since := s.tracksTime)
  }

  /** `again` is the round over mail that came in meanwhile, if the re-check finds any. */
  function RunCall(w: World, s: Settings, r: Round, again: Option<Round>): Outcome {
    if !s.Accepted() then Outcome(w, BadArguments)
    else
      var first := RunRound(w, s, r, EMPTY_BATCH);
      if first.status.Returned? && first.status.persisted && !s.test && s.batchSize == 0 && again.Some? then
        RunRound(first.world, Again(s), again.value, first.status.reports)
      else first
  }
}
