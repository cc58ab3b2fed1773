/**
 Reloading the configuration of a running watcher without ever losing the old one
 (`_init_output_clients`, `_close_output_clients`, the snapshot/restore pairs, the two search handles and
 the reload block of `_main` in parsedmarc/cli.py; the loaders of parsedmarc/utils.py).

 Clients are heap objects with an `open` flag, which `Close` clears. Old and new clients share one registry
 of connection aliases. What each step does -- succeed, fail, be interrupted -- is part of a plan that the
 methods take as a parameter and obey.
 */
module Reload {
  import opened Wrappers

  /* ---------- Clients, handles and the alias registry ---------- */

  datatype Backend = Elastic | OpenSearch

  const ALL_BACKENDS: set<Backend> := {Elastic, OpenSearch}

  lemma EveryBackend()
    ensures forall b: Backend :: b in ALL_BACKENDS
  {
    forall b: Backend ensures b in ALL_BACKENDS {
      assert b == Elastic || b == OpenSearch;
    }
  }

  /** True of every object; what is said about all objects is used through it. */
  ghost predicate Any(o: object) {
    true
  }

  class Client {
    const hasClose: bool
    var open: bool

    constructor (hasClose: bool)
      ensures this.hasClose == hasClose && open
      ensures forall o: object | Any(o) :: fresh(o) ==> o == this
    {
      this.hasClose := hasClose;
      open := true;
    }

    /** Nothing of the client is left to close. */
    predicate Closed()
      reads this
    {
      hasClose ==> !open
    }

    method Close()
      modifies this
      ensures !open
      ensures forall o: object | Any(o) :: !fresh(o)
    {
      open := false;
    }
  }

  /** The process-wide `default` alias of each installed search SDK, and `elastic._SERVERLESS`. */
  class Registry {
    const installed: set<Backend>
    var alias: map<Backend, Client>
    var serverless: bool

    constructor (installed: set<Backend>)
      ensures this.installed == installed && alias == map[] && !serverless
      ensures forall o: object | Any(o) :: fresh(o) ==> o == this
    {
      this.installed := installed;
      alias, serverless := map[], false;
    }
  }

  /** How a close call may be cut short by an interrupt: before or after the connection is closed. */
  datatype Interrupt = Never | At(countdown: nat, afterClose: bool)

  /** `_ElasticsearchHandle` / `_OpenSearchHandle`: owns the client that was registered when it was built. */
  class SearchHandle {
    const backend: Backend
    const connection: Client

    constructor (backend: Backend, connection: Client)
      ensures this.backend == backend && this.connection == connection
      ensures forall o: object | Any(o) :: fresh(o) ==> o == this
    {
      this.backend := backend;
      this.connection := connection;
    }

    /** Closes the connection and gives up the alias only while it still names that connection. */
    method Close(reg: Registry)
      modifies reg`alias, connection
      ensures !connection.open
      ensures reg.alias == Released(old(reg.alias), backend, connection)
      ensures forall o: object | Any(o) :: !fresh(o)
    {
      connection.Close();
      if backend in reg.alias && reg.alias[backend] == connection {
        reg.alias := reg.alias - {backend};
      }
    }
  }

  function Released(alias: map<Backend, Client>, backend: Backend, connection: Client): (r: map<Backend, Client>) {
    if backend in alias && alias[backend] == connection then alias - {backend} else alias
  }

  datatype Output = Plain(client: Client) | Search(handle: SearchHandle) {
    function Connection(): Client {
      if Plain? then client else handle.connection
    }

    predicate Owns(backend: Backend, c: Client) {
      Search? && handle.backend == backend && handle.connection == c
    }

    /** The aliases once this output is closed. */
    function Releases(alias: map<Backend, Client>): map<Backend, Client> {
      if Plain? then alias else Released(alias, handle.backend, handle.connection)
    }

    /** A close that is interrupted before or after the connection is closed. */
    method CutShort(afterClose: bool)
      modifies Connection()
      ensures Connection().open ==> old(Connection().open)
      ensures forall o: object | Any(o) :: !fresh(o)
    {
      if afterClose && Connection().hasClose {
        Connection().Close();
      }
    }

    /** A client without a close method is skipped; a search handle also gives its alias up. */
    method Close(reg: Registry)
      modifies reg`alias, Connection()
      ensures Connection().Closed() && (Connection().open ==> old(Connection().open))
      ensures reg.alias == Releases(old(reg.alias))
      ensures forall o: object | Any(o) :: !fresh(o)
    {
      match this {
        case Plain(client) => if client.hasClose { client.Close(); }
        case Search(handle) => handle.Close(reg);
      }
    }
  }

  /** A dictionary of output clients, in insertion order. */
  class ClientDict {
    var entries: seq<Output>

    constructor ()
      ensures entries == []
      ensures forall o: object | Any(o) :: fresh(o) ==> o == this
    {
      entries := [];
    }
  }

  function Connections(entries: seq<Output>): (r: set<Client>) {
    set i | 0 <= i < |entries| :: entries[i].Connection()
  }

  ghost predicate Owned(entries: seq<Output>, backend: Backend, c: Client) {
    exists i :: 0 <= i < |entries| && entries[i].Owns(backend, c)
  }

  /* ---------- Closing ---------- */

  /** The aliases left after every entry has been closed. */
  ghost predicate AliasesReleased(before: map<Backend, Client>, after: map<Backend, Client>, entries: seq<Output>) {
    forall b: Backend ::
      && (b in after <==> b in before && !Owned(entries, b, before[b]))
      && (b in after ==> after[b] == before[b])
  }

  /** Some aliases given up, each by a handle that owned it; the rest untouched. */
  ghost predicate SomeReleased(before: map<Backend, Client>, after: map<Backend, Client>, entries: seq<Output>) {
    forall b: Backend ::
      && (b in after ==> b in before && after[b] == before[b])
      && (b in before && b !in after ==> Owned(entries, b, before[b]))
  }

  /** Closing entry `k` after all later ones. */
  lemma SuffixGrows(all: seq<Output>, k: nat, before: map<Backend, Client>, alias: map<Backend, Client>)
    requires k < |all| && AliasesReleased(before, alias, all[k + 1..])
    ensures AliasesReleased(before, all[k].Releases(alias), all[k..])
    ensures Connections(all[k..]) == Connections(all[k + 1..]) + {all[k].Connection()} <= Connections(all)
  {
    var rest, longer := all[k + 1..], all[k..];
    assert longer == [all[k]] + rest;
    assert forall i :: 0 <= i < |rest| ==> longer[i + 1] == rest[i];
    forall b: Backend, c: Client ensures Owned(longer, b, c) <==> all[k].Owns(b, c) || Owned(rest, b, c) {
      if i :| 0 <= i < |rest| && rest[i].Owns(b, c) {
        assert longer[i + 1].Owns(b, c);
      }
      if all[k].Owns(b, c) {
        assert longer[0].Owns(b, c);
      }
    }
    forall c | c in Connections(rest) + {all[k].Connection()} ensures c in Connections(longer) {
      if c in Connections(rest) {
        var i :| 0 <= i < |rest| && rest[i].Connection() == c;
        assert longer[i + 1].Connection() == c;
      } else {
        assert longer[0].Connection() == c;
      }
    }
  }

  lemma SuffixReleased(all: seq<Output>, k: nat, before: map<Backend, Client>, alias: map<Backend, Client>)
    requires k <= |all| && AliasesReleased(before, alias, all[k..])
    ensures SomeReleased(before, alias, all)
  {
    forall b | b in before && Owned(all[k..], b, before[b]) ensures Owned(all, b, before[b]) {
      var i :| 0 <= i < |all[k..]| && all[k..][i].Owns(b, before[b]);
      assert all[k + i].Owns(b, before[b]);
    }
  }

  /** Every entry from `k` on is closed, and the aliases are what that leaves. */
  ghost predicate ClosedFrom(all: seq<Output>, k: nat, before: map<Backend, Client>, alias: map<Backend, Client>)
    requires k <= |all|
    reads Connections(all[k..])
  {
    AliasesReleased(before, alias, all[k..]) && forall c :: c in Connections(all[k..]) ==> c.Closed()
  }

  lemma NothingClosed(all: seq<Output>, before: map<Backend, Client>)
    ensures ClosedFrom(all, |all|, before, before)
  {
    assert all[|all|..] == [];
  }

  /** One iteration: pops the last entry and closes it. */
  method CloseLast(dict: ClientDict, reg: Registry, ghost all: seq<Output>, ghost before: map<Backend, Client>)
    requires dict.entries != [] && dict.entries <= all && ClosedFrom(all, |dict.entries|, before, reg.alias)
    modifies dict, reg`alias, all[|dict.entries| - 1].Connection()
    ensures dict.entries == old(dict.entries)[..|old(dict.entries)| - 1]
    ensures ClosedFrom(all, |dict.entries|, before, reg.alias)
    ensures var c := all[|dict.entries|].Connection(); c.open ==> old(c.open)
    ensures forall o: object | Any(o) :: !fresh(o)
  {
    hide AliasesReleased, Connections, Released, Output.Releases, Output.Connection;
    ghost var k := |dict.entries| - 1;
    var output := dict.entries[|dict.entries| - 1];
    assert output == all[k] && ClosedFrom(all, k + 1, before, reg.alias);
    SuffixGrows(all, k, before, reg.alias);
    dict.entries := dict.entries[..|dict.entries| - 1];
    output.Close(reg);
    forall c | c in Connections(all[k..]) ensures c.Closed() {
      if c != output.Connection() {
        assert Any(c) && c in Connections(all[k + 1..]) && old(c.Closed());
      }
    }
  }

  lemma IsConnected(all: seq<Output>, k: nat)
    requires k < |all|
    ensures all[k].Connection() in Connections(all)
  {
  }

  /**
   `_close_output_clients`: pops and closes until the dictionary is empty. Ordinary errors are swallowed;
   an interrupt during the k-th close propagates and leaves the rest unclosed.
   */
  method CloseOutputClients(dict: ClientDict, reg: Registry, interrupt: Interrupt) returns (interrupted: bool)
    modifies dict, reg`alias, Connections(dict.entries)
    ensures interrupt == Never ==> !interrupted
    ensures !interrupted ==> dict.entries == [] && AliasesReleased(old(reg.alias), reg.alias, old(dict.entries))
    ensures !interrupted ==> forall c :: c in Connections(old(dict.entries)) ==> c.Closed()
    ensures SomeReleased(old(reg.alias), reg.alias, old(dict.entries))
    ensures dict.entries <= old(dict.entries)
    ensures forall c :: c in Connections(old(dict.entries)) ==> c.open ==> old(c.open)
    ensures forall o: object | Any(o) :: !fresh(o)
  {
    ghost var all, before := dict.entries, reg.alias;
    var left := interrupt;
    NothingClosed(all, before);
    while dict.entries != []
      invariant dict.entries <= all && ClosedFrom(all, |dict.entries|, before, reg.alias)
      invariant left == Never <==> interrupt == Never
      invariant forall o: object | Any(o) :: !fresh(o)
      invariant forall c :: c in Connections(all) ==> c.open ==> old(c.open)
      decreases |dict.entries|
    {
      IsConnected(all, |dict.entries| - 1);
      if left.At? && left.countdown == 0 {
        SuffixReleased(all, |dict.entries|, before, reg.alias);
        var output := dict.entries[|dict.entries| - 1];
        dict.entries := dict.entries[..|dict.entries| - 1];
        output.CutShort(left.afterClose);
        return true;
      }
      CloseLast(dict, reg, all, before);
      hide ClosedFrom, SomeReleased, Connections, Output.Connection;
      left := if left.At? then At(left.countdown - 1, left.afterClose) else Never;
    }
    SuffixReleased(all, 0, before, reg.alias);
    assert all[0..] == all;
    return false;
  }

  /* ---------- Snapshot and restore of the search aliases ---------- */

  datatype SavedAlias = SavedAlias(backend: Backend, client: Option<Client>, serverless: bool)

  function Lookup(alias: map<Backend, Client>, b: Backend): Option<Client> {
    if b in alias then Some(alias[b]) else None
  }

  lemma SameLookups(a: map<Backend, Client>, b: map<Backend, Client>)
    requires forall k :: Lookup(a, k) == Lookup(b, k)
    ensures a == b
  {
    forall k ensures k in a <==> k in b { assert Lookup(a, k) == Lookup(b, k); }
    forall k | k in a ensures a[k] == b[k] { assert Lookup(a, k) == Lookup(b, k); }
  }

  /** One entry per installed backend, in the program's order; only Elasticsearch has a serverless flag. */
  function SnapshotOf(installed: set<Backend>, alias: map<Backend, Client>, serverless: bool): (r: seq<SavedAlias>) {
    (if Elastic in installed then [SavedAlias(Elastic, Lookup(alias, Elastic), serverless)] else [])
    + (if OpenSearch in installed then [SavedAlias(OpenSearch, Lookup(alias, OpenSearch), false)] else [])
  }

  lemma SnapshotCovers(installed: set<Backend>, alias: map<Backend, Client>, serverless: bool,
      b: Backend) returns (k: nat)
    requires b in installed
    ensures k < |SnapshotOf(installed, alias, serverless)|
    ensures SnapshotOf(installed, alias, serverless)[k].backend == b
    ensures SnapshotOf(installed, alias, serverless)[k].client == Lookup(alias, b)
  {
    match b {
      case Elastic => k := 0;
      case OpenSearch => k := |SnapshotOf(installed, alias, serverless)| - 1;
    }
  }

  method SearchAliasSnapshot(reg: Registry) returns (snapshot: seq<SavedAlias>)
    ensures snapshot == SnapshotOf(reg.installed, reg.alias, reg.serverless)
    ensures forall o: object | Any(o) :: !fresh(o)
  {
    snapshot := [];
    if Elastic in reg.installed {
      snapshot := [SavedAlias(Elastic, if Elastic in reg.alias then Some(reg.alias[Elastic])
        else None, reg.serverless)];
    }
    if OpenSearch in reg.installed {
      snapshot := snapshot
        + [SavedAlias(OpenSearch, if OpenSearch in reg.alias then Some(reg.alias[OpenSearch]) else None, false)];
    }
  }

  /** The clients that have taken an alias over since `before`. */
  function Newcomers(alias: map<Backend, Client>, before: map<Backend, Client>): (r: set<Client>) {
    set b | b in alias && !(b in before && before[b] == alias[b]) :: alias[b]
  }

  function Current(alias: map<Backend, Client>, saved: SavedAlias): (r: set<Client>) {
    if saved.backend in alias && Some(alias[saved.backend]) != saved.client then {alias[saved.backend]} else {}
  }

  /** The registry once one entry has been restored. */
  function Restored(alias: map<Backend, Client>, saved: SavedAlias): map<Backend, Client> {
    if saved.client.None? then alias - {saved.backend} else alias[saved.backend := saved.client.value]
  }

  function RestoredTo(alias: map<Backend, Client>, snapshot: seq<SavedAlias>, i: nat): map<Backend, Client>
    requires i <= |snapshot|
  {
    if i == 0 then alias else Restored(RestoredTo(alias, snapshot, i - 1), snapshot[i - 1])
  }

  /** Restoring every entry of a snapshot brings the aliases of that time back, whatever happened since. */
  lemma RestoredIsBefore(installed: set<Backend>, before: map<Backend, Client>, serverless: bool,
      alias: map<Backend, Client>)
    requires alias.Keys <= installed && before.Keys <= installed
    ensures var snapshot := SnapshotOf(installed, before, serverless);
      RestoredTo(alias, snapshot, |snapshot|) == before
  {
    var snapshot := SnapshotOf(installed, before, serverless);
    var restored := RestoredTo(alias, snapshot, |snapshot|);
    assert RestoredTo(alias, snapshot, 0) == alias;
    if |snapshot| > 0 {
      assert RestoredTo(alias, snapshot, 1) == Restored(alias, snapshot[0]);
    }
    if |snapshot| > 1 {
      assert restored == Restored(RestoredTo(alias, snapshot, 1), snapshot[1]);
    }
    forall b: Backend ensures Lookup(restored, b) == Lookup(before, b) {
      match b {
        case Elastic => assert Elastic !in alias || Elastic in installed;
        case OpenSearch => assert OpenSearch !in alias || OpenSearch in installed;
      }
    }
    SameLookups(restored, before);
  }

  lemma UntouchedSoFar(installed: set<Backend>, before: map<Backend, Client>, serverless: bool,
      alias: map<Backend, Client>, i: nat)
    requires i < |SnapshotOf(installed, before, serverless)|
    ensures var snapshot := SnapshotOf(installed, before, serverless);
      Current(RestoredTo(alias, snapshot, i), snapshot[i]) == Current(alias, snapshot[i]) <= Newcomers(alias, before)
  {
    var snapshot := SnapshotOf(installed, before, serverless);
    CurrentIsNewcomer(alias, before, snapshot[i]);
    if i > 0 {
      assert RestoredTo(alias, snapshot, i) == Restored(RestoredTo(alias, snapshot, 0), snapshot[0]);
    }
  }

  /** Hands one backend's alias back; `closeWorks` is false when closing its current client is interrupted. */
  method RestoreOne(reg: Registry, saved: SavedAlias, closeWorks: bool)
    modifies reg, Current(reg.alias, saved)
    ensures reg.alias == Restored(old(reg.alias), saved)
    ensures reg.serverless == if saved.backend == Elastic then saved.serverless else old(reg.serverless)
    ensures forall c :: c in Current(old(reg.alias), saved) ==> c.open == (old(c.open) && !closeWorks)
    ensures forall o: object | Any(o) :: !fresh(o)
  {
    if saved.backend == Elastic {
      reg.serverless := saved.serverless;
    }
    var current := if saved.backend in reg.alias then Some(reg.alias[saved.backend]) else None;
    if current == saved.client {
      assert reg.alias == Restored(reg.alias, saved);
      return;
    }
    if current.Some? && closeWorks {
      current.value.Close();
    }
    reg.alias := if saved.client.None? then reg.alias - {saved.backend}
      else reg.alias[saved.backend := saved.client.value];
  }

  /**
   `_restore_search_aliases`: closes whatever took an alias over since the snapshot and hands every alias
   back, whether or not those closes work; `closing` are the backends for which they do.
   */
  method RestoreSearchAliases(reg: Registry, snapshot: seq<SavedAlias>, closing: set<Backend>,
      ghost before: map<Backend, Client>, ghost serverless: bool)
    requires snapshot == SnapshotOf(reg.installed, before, serverless)
    requires reg.alias.Keys <= reg.installed && before.Keys <= reg.installed
    requires Elastic !in reg.installed ==> reg.serverless == serverless
    modifies reg, Newcomers(reg.alias, before)
    ensures reg.alias == before && reg.serverless == serverless
    ensures forall b :: b in old(reg.alias) && Lookup(before, b) != Some(old(reg.alias)[b]) && b in closing ==>
      !old(reg.alias)[b].open
    ensures forall c :: c in Newcomers(old(reg.alias), before) ==> c.open ==> old(c.open)
    ensures forall o: object | Any(o) :: !fresh(o)
  {
    ghost var taken := reg.alias;
    SnapshotEntries(reg.installed, before, serverless);
    RestoredIsBefore(reg.installed, before, serverless, taken);
    hide SnapshotOf, Newcomers, Current, Restored;
    for i := 0 to |snapshot|
      invariant reg.alias == RestoredTo(taken, snapshot, i)
      invariant forall o: object | Any(o) :: !fresh(o)
      invariant reg.serverless == if i > 0 && snapshot[0].backend == Elastic then serverless else old(reg.serverless)
      invariant forall k :: 0 <= k < i && snapshot[k].backend in closing ==>
        forall c :: c in Current(taken, snapshot[k]) ==> !c.open
      invariant forall c :: c in Newcomers(taken, before) ==> c.open ==> old(c.open)
    {
      UntouchedSoFar(reg.installed, before, serverless, taken, i);
      RestoreOne(reg, snapshot[i], snapshot[i].backend in closing);
    }
    forall b | b in taken && Lookup(before, b) != Some(taken[b]) && b in closing ensures !taken[b].open {
      var k := NewcomerIsCurrent(taken, before, reg.installed, serverless, b);
    }
  }

  lemma SnapshotEntries(installed: set<Backend>, alias: map<Backend, Client>, serverless: bool)
    ensures var snapshot := SnapshotOf(installed, alias, serverless);
      && (forall i :: 0 <= i < |snapshot| && snapshot[i].backend == Elastic ==>
        i == 0 && snapshot[i].serverless == serverless)
      && (Elastic in installed ==> snapshot != [] && snapshot[0].backend == Elastic)
  {
  }

  lemma CurrentIsNewcomer(alias: map<Backend, Client>, before: map<Backend, Client>, saved: SavedAlias)
    requires saved.client == Lookup(before, saved.backend)
    ensures Current(alias, saved) <= Newcomers(alias, before)
  {
  }

  lemma NewcomerIsCurrent(alias: map<Backend, Client>, before: map<Backend, Client>, installed: set<Backend>,
      serverless: bool, b: Backend) returns (k: nat)
    requires b in alias && Lookup(before, b) != Some(alias[b]) && alias.Keys <= installed
    ensures var snapshot := SnapshotOf(installed, before, serverless);
      k < |snapshot| && snapshot[k].backend == b && alias[b] in Current(alias, snapshot[k])
  {
    k := SnapshotCovers(installed, before, serverless, b);
  }

  /** When every close works, every newcomer is closed. */
  lemma AllNewcomersClosed(alias: map<Backend, Client>, before: map<Backend, Client>)
    requires forall b :: b in alias && Lookup(before, b) != Some(alias[b]) && b in ALL_BACKENDS ==> !alias[b].open
    ensures forall c :: c in Newcomers(alias, before) ==> !c.open
  {
    forall c | c in Newcomers(alias, before) ensures !c.open {
      var b :| b in alias && !(b in before && before[b] == alias[b]) && alias[b] == c;
      assert b == Elastic || b == OpenSearch;
      assert Lookup(before, b) != Some(alias[b]);
    }
  }

  /* ---------- Building the output clients ---------- */

  /** How far `set_hosts` and the index migration behind it get. */
  datatype SearchOutcome = ConstructorFails | MigrationInterrupted | Ready

  /** One step of `_build_output_clients` and what becomes of it. */
  datatype BuildStep =
    | Require(met: bool)
    | MakePlain(hasClose: bool, succeeds: bool)
    | MakeSearch(backend: Backend, serverless: bool, outcome: SearchOutcome)

  predicate Succeeds(step: BuildStep, installed: set<Backend>) {
    match step
    case Require(met) => met
    case MakePlain(_, succeeds) => succeeds
    case MakeSearch(backend, _, outcome) => backend in installed && outcome == Ready
  }

  /** The backend whose client is registered when this step fails, but in no dictionary yet. */
  function LeftByStep(step: BuildStep, installed: set<Backend>): Option<Backend> {
    if step.MakeSearch? && step.backend in installed && step.outcome == MigrationInterrupted then Some(step.backend)
    else None
  }

  /** The same for a whole plan: it is up to the first step that fails. */
  function HalfRegistered(plan: seq<BuildStep>, installed: set<Backend>): Option<Backend> {
    if plan == [] then None
    else if Succeeds(plan[0], installed) then HalfRegistered(plan[1..], installed)
    else LeftByStep(plan[0], installed)
  }

  lemma {:induction false} HalfRegisteredAt(plan: seq<BuildStep>, i: nat, installed: set<Backend>)
    requires i < |plan| && AllSucceed(plan[..i], installed) && !Succeeds(plan[i], installed)
    ensures HalfRegistered(plan, installed) == LeftByStep(plan[i], installed)
  {
    hide Succeeds, LeftByStep;
    if i > 0 {
      assert plan[..i][0] == plan[0];
      var front := plan[1..][..i - 1];
      forall k | 0 <= k < |front| ensures Succeeds(front[k], installed) {
        assert front[k] == plan[..i][k + 1];
      }
      HalfRegisteredAt(plan[1..], i - 1, installed);
    }
  }

  predicate AllSucceed(plan: seq<BuildStep>, installed: set<Backend>) {
    forall i :: 0 <= i < |plan| ==> Succeeds(plan[i], installed)
  }

  /** What kind of output an entry is. */
  datatype OutputKind = PlainOutput(hasClose: bool) | SearchOutput(backend: Backend)

  /** The outputs a successful plan yields. */
  function OutputsOf(plan: seq<BuildStep>): (r: seq<OutputKind>) {
    if plan == [] then []
    else
      var step := plan[|plan| - 1];
      OutputsOf(plan[..|plan| - 1]) +
        (match step
         case Require(_) => []
         case MakePlain(hasClose, _) => [PlainOutput(hasClose)]
         case MakeSearch(backend, _, _) => [SearchOutput(backend)])
  }

  function Described(entries: seq<Output>): (r: seq<OutputKind>) {
    seq(|entries|, i requires 0 <= i < |entries| =>
      if entries[i].Search? then SearchOutput(entries[i].handle.backend) else PlainOutput(entries[i].client.hasClose))
  }

  /** The output is the one that the step makes. */
  predicate IsOutputOf(step: BuildStep, output: OutputKind) {
    match step
    case Require(_) => false
    case MakePlain(hasClose, _) => output == PlainOutput(hasClose)
    case MakeSearch(backend, _, _) => output == SearchOutput(backend)
  }

  lemma OutputsOneMore(plan: seq<BuildStep>)
    requires plan != []
    ensures var n, before, after := |plan| - 1, OutputsOf(plan[..|plan| - 1]), OutputsOf(plan);
      if plan[n].Require? then after == before
      else |after| == |before| + 1 && after[..|before|] == before && IsOutputOf(plan[n], after[|before|])
  {
  }

  lemma {:induction false} OutputsAreSteps(plan: seq<BuildStep>) returns (from: seq<nat>)
    ensures |from| == |OutputsOf(plan)|
    ensures forall k :: 0 <= k < |from| ==> from[k] < |plan| && IsOutputOf(plan[from[k]], OutputsOf(plan)[k])
    ensures forall a, b :: 0 <= a < b < |from| ==> from[a] < from[b]
    ensures forall i: nat :: i in from <==> i < |plan| && !plan[i].Require?
  {
    if plan == [] {
      from := [];
    } else {
      var n := |plan| - 1;
      from := OutputsAreSteps(plan[..n]);
      OutputsOneMore(plan);
      hide OutputsOf, IsOutputOf;
      if !plan[n].Require? {
        from := from + [n];
      }
    }
  }

  /** A dictionary so described holds one output for each step of the plan that makes one, in order and of its kind. */
  lemma EntriesAreSteps(entries: seq<Output>, plan: seq<BuildStep>) returns (from: seq<nat>)
    requires Described(entries) == OutputsOf(plan)
    ensures |from| == |entries|
    ensures forall k :: 0 <= k < |from| ==>
      && from[k] < |plan|
      && match plan[from[k]]
         case Require(_) => false
         case MakePlain(hasClose, _) => entries[k].Plain? && entries[k].client.hasClose == hasClose
         case MakeSearch(backend, _, _) => entries[k].Search? && entries[k].handle.backend == backend
    ensures forall a, b :: 0 <= a < b < |from| ==> from[a] < from[b]
    ensures forall i: nat :: i in from <==> i < |plan| && !plan[i].Require?
  {
    from := OutputsAreSteps(plan);
    hide OutputsOf;
    forall k | 0 <= k < |entries| ensures Described(entries)[k] == OutputsOf(plan)[k] {
    }
  }

  /** The serverless flag a successful plan leaves behind. */
  function ServerlessAfter(plan: seq<BuildStep>, before: bool): bool {
    if plan == [] then before
    else
      var step := plan[|plan| - 1];
      if step.MakeSearch? && step.backend == Elastic then step.serverless
      else ServerlessAfter(plan[..|plan| - 1], before)
  }

  /** The last Elasticsearch step of a plan decides the flag; a plan without one leaves it alone. */
  lemma {:induction false} LastElasticDecides(plan: seq<BuildStep>, before: bool)
    ensures forall i :: IsLastElastic(plan, i) ==> ServerlessAfter(plan, before) == plan[i].serverless
    ensures (forall i :: 0 <= i < |plan| ==> !MakesElastic(plan[i])) ==> ServerlessAfter(plan, before) == before
  {
    if plan != [] {
      var n := |plan| - 1;
      LastElasticDecides(plan[..n], before);
      forall i | IsLastElastic(plan, i) ensures ServerlessAfter(plan, before) == plan[i].serverless {
        assert !MakesElastic(plan[n]) ==> IsLastElastic(plan[..n], i);
      }
    }
  }

  predicate MakesElastic(step: BuildStep) {
    step.MakeSearch? && step.backend == Elastic
  }

  predicate IsLastElastic(plan: seq<BuildStep>, i: int) {
    0 <= i < |plan| && MakesElastic(plan[i]) && forall j :: i < j < |plan| ==> !MakesElastic(plan[j])
  }

  /** What is true of a partly or fully built dictionary: all of it is new, open, and accounted for. */
  ghost predicate Built(entries: seq<Output>, created: set<Client>, alias: map<Backend, Client>,
      before: map<Backend, Client>)
    reads created
  {
    (forall c :: c in created ==> c.open) && Traced(entries, created, alias, before)
  }

  /** Each new client is in the dictionary or has taken an alias over, and nothing else has. */
  ghost predicate Traced(entries: seq<Output>, created: set<Client>, alias: map<Backend, Client>,
      before: map<Backend, Client>) {
    && Connections(entries) <= created
    && (forall c :: c in created ==> c in Connections(entries) || c in Newcomers(alias, before))
    && (forall b :: Lookup(alias, b) == Lookup(before, b) || (b in alias && alias[b] in created))
  }

  /** Every new client is in the dictionary, but for one that only the alias of `left` names. */
  ghost predicate AllButOne(entries: seq<Output>, created: set<Client>, alias: map<Backend, Client>,
      left: Option<Backend>)
  {
    forall c :: c in created ==>
      c in Connections(entries) || (left.Some? && left.value in alias && alias[left.value] == c)
  }

  /** Closing the dictionary leaves the remaining new clients, and only new ones, to the restore. */
  lemma RestIsRestored(entries: seq<Output>, created: set<Client>, alias: map<Backend, Client>,
      before: map<Backend, Client>,
      after: map<Backend, Client>)
    requires Traced(entries, created, alias, before) && SomeReleased(alias, after, entries)
    ensures Newcomers(after, before) <= created
    ensures forall c :: c in created ==> c in Connections(entries) || c in Newcomers(after, before)
  {
    forall c | c in Newcomers(after, before) ensures c in created {
      var b :| b in after && !(b in before && before[b] == after[b]) && after[b] == c;
      assert Lookup(alias, b) != Lookup(before, b);
    }
    forall c | c in created && c !in Connections(entries) ensures c in Newcomers(after, before) {
      var b :| b in alias && !(b in before && before[b] == alias[b]) && alias[b] == c;
      OwnedIsConnected(entries, b, c);
    }
  }

  /** A new client outside the dictionary still holds its alias when the dictionary is closed. */
  lemma LastOneIsRestored(entries: seq<Output>, created: set<Client>, alias: map<Backend, Client>,
      before: map<Backend, Client>, after: map<Backend, Client>, left: Option<Backend>)
    requires AllButOne(entries, created, alias, left) && SomeReleased(alias, after, entries)
    requires created !! before.Values
    ensures forall c :: c in created && c !in Connections(entries) ==>
      left.Some? && left.value in after && after[left.value] == c && Lookup(before, left.value) != Some(c)
  {
    forall c | c in created && c !in Connections(entries)
      ensures left.Some? && left.value in after && after[left.value] == c && Lookup(before, left.value) != Some(c)
    {
      OwnedIsConnected(entries, left.value, c);
      assert left.value in before ==> before[left.value] in before.Values;
    }
  }

  lemma OwnedIsConnected(entries: seq<Output>, b: Backend, c: Client)
    ensures Owned(entries, b, c) ==> c in Connections(entries)
  {
    if i :| 0 <= i < |entries| && entries[i].Owns(b, c) {
      assert entries[i].Connection() == c;
    }
  }

  lemma NothingTraced(alias: map<Backend, Client>)
    ensures Traced([], {}, alias, alias)
  {
  }

  /** Every alias either still names its old client or one that a handle of the dictionary owns. */
  ghost predicate Settled(entries: seq<Output>, alias: map<Backend, Client>, before: map<Backend, Client>) {
    && (forall b :: SearchOutput(b) in Described(entries) ==> b in alias && Owned(entries, b, alias[b]))
    && (forall b :: SearchOutput(b) !in Described(entries) ==> Lookup(alias, b) == Lookup(before, b))
  }

  lemma EverythingInDict(entries: seq<Output>, created: set<Client>, alias: map<Backend, Client>,
      before: map<Backend, Client>)
    requires Built(entries, created, alias, before) && Settled(entries, alias, before)
    ensures created == Connections(entries)
  {
    forall c | c in created ensures c in Connections(entries) {
      if c in Newcomers(alias, before) {
        var b :| b in alias && !(b in before && before[b] == alias[b]) && alias[b] == c;
        assert Lookup(alias, b) != Lookup(before, b);
        OwnedIsConnected(entries, b, c);
      }
    }
  }

  /** One step; on failure it leaves behind what it has already changed. */
  method TakeStep(reg: Registry, dict: ClientDict, step: BuildStep, ghost before: map<Backend, Client>,
      ghost created: set<Client>)
    returns (ok: bool, ghost created': set<Client>)
    requires Built(dict.entries, created, reg.alias, before) && Settled(dict.entries, reg.alias, before)
    requires reg.alias.Keys <= reg.installed
    modifies reg, dict
    ensures ok <==> Succeeds(step, reg.installed)
    ensures created <= created' && forall c :: c in created' ==> c in created || fresh(c)
    ensures Built(dict.entries, created', reg.alias, before) && reg.alias.Keys <= reg.installed
    ensures ok ==> Settled(dict.entries, reg.alias, before)
    ensures ok ==> Described(dict.entries) == Described(old(dict.entries)) + OutputsOf([step])
    ensures !ok ==> AllButOne(dict.entries, created', reg.alias, LeftByStep(step, reg.installed))
    ensures ok ==> reg.serverless == ServerlessAfter([step], old(reg.serverless))
    ensures Elastic !in reg.installed ==> reg.serverless == old(reg.serverless)
    ensures forall c: Client | Any(c) :: fresh(c) ==> c in created'
    ensures forall h: LogHandler | Any(h) :: !fresh(h)
  {
    created' := created;
    ok := false;
    assert [step][..0] == [] && OutputsOf([step]) == [] + OutputsOf([step]);
    hide Built, Settled, Described, OutputsOf, ServerlessAfter;
    StepOutputs(step, reg.serverless);
    EverythingInDict(dict.entries, created, reg.alias, before);
    match step {
      case Require(met) =>
        ok := met;
        assert Described(dict.entries) + [] == Described(dict.entries);
      case MakePlain(hasClose, succeeds) =>
        if succeeds {
          var client := new Client(hasClose);
          PlainAdded(dict.entries, client, created, reg.alias, before);
          dict.entries := dict.entries + [Plain(client)];
          created', ok := created + {client}, true;
        }
      case MakeSearch(backend, serverless, outcome) =>
        if backend in reg.installed {
          ok, created' := SetHosts(reg, dict, backend, serverless, outcome, before, created);
        }
    }
  }

  /** `set_hosts`, the index migration, and the handle: the alias is taken over as soon as the client exists. */
  method SetHosts(reg: Registry, dict: ClientDict, backend: Backend, serverless: bool, outcome: SearchOutcome,
      ghost before: map<Backend, Client>, ghost created: set<Client>) returns (ok: bool, ghost created': set<Client>)
    requires Built(dict.entries, created, reg.alias, before) && Settled(dict.entries, reg.alias, before)
    requires reg.alias.Keys <= reg.installed && backend in reg.installed
    modifies reg, dict
    ensures ok <==> outcome == Ready
    ensures created <= created' && forall c :: c in created' ==> c in created || fresh(c)
    ensures Built(dict.entries, created', reg.alias, before) && reg.alias.Keys <= reg.installed
    ensures ok ==> Settled(dict.entries, reg.alias, before)
    ensures ok ==> Described(dict.entries) == Described(old(dict.entries)) + [SearchOutput(backend)]
    ensures !ok ==>
      AllButOne(dict.entries, created', reg.alias, if outcome == MigrationInterrupted then Some(backend) else None)
    ensures reg.serverless == if backend == Elastic then serverless else old(reg.serverless)
    ensures forall c: Client | Any(c) :: fresh(c) ==> c in created'
    ensures forall h: LogHandler | Any(h) :: !fresh(h)
    ensures outcome == ConstructorFails ==>
      reg.alias == old(reg.alias) && dict.entries == old(dict.entries) && created' == created
    ensures outcome != ConstructorFails ==> backend in reg.alias && fresh(reg.alias[backend])
    ensures outcome != ConstructorFails ==>
      reg.alias == old(reg.alias)[backend := reg.alias[backend]] && created' == created + {reg.alias[backend]}
    ensures outcome == MigrationInterrupted ==> dict.entries == old(dict.entries)
  {
    hide Built, Settled, Described;
    created', ok := created, false;
    EverythingInDict(dict.entries, created, reg.alias, before);
    if backend == Elastic {
      reg.serverless := serverless;
    }
    if outcome == ConstructorFails {
      return;
    }
    var connection := new Client(true);
    created' := created + {connection};
    ghost var alias := reg.alias;
    reg.alias := reg.alias[backend := connection];
    if outcome == MigrationInterrupted {
      Registered(dict.entries, backend, connection, created, alias, before);
      return;
    }
    var handle := new SearchHandle(backend, connection);
    SearchAdded(dict.entries, handle, created, alias, before);
    dict.entries := dict.entries + [Search(handle)];
    ok := true;
  }

  lemma StepOutputs(step: BuildStep, serverless: bool)
    ensures OutputsOf([step]) ==
      (match step
       case Require(_) => []
       case MakePlain(hasClose, _) => [PlainOutput(hasClose)]
       case MakeSearch(backend, _, _) => [SearchOutput(backend)])
    ensures ServerlessAfter([step], serverless) ==
      if step.MakeSearch? && step.backend == Elastic then step.serverless else serverless
  {
    assert [step][..0] == [];
  }

  lemma PlanOneMore(plan: seq<BuildStep>, i: nat, installed: set<Backend>, serverless: bool)
    requires i < |plan|
    ensures OutputsOf(plan[..i + 1]) == OutputsOf(plan[..i]) + OutputsOf([plan[i]])
    ensures ServerlessAfter(plan[..i + 1], serverless) == ServerlessAfter([plan[i]], ServerlessAfter(plan[..i],
      serverless))
    ensures AllSucceed(plan[..i + 1], installed) <==> AllSucceed(plan[..i], installed) && Succeeds(plan[i], installed)
    ensures !Succeeds(plan[i], installed) ==> !AllSucceed(plan, installed)
  {
    StepOutputs(plan[i], ServerlessAfter(plan[..i], serverless));
    assert plan[..i + 1][..i] == plan[..i];
  }

  /**
   `_build_output_clients`: not transactional -- a failing step leaves what earlier steps did. `created`
   collects every client that was constructed.
   */
  method BuildOutputClients(reg: Registry, dict: ClientDict, plan: seq<BuildStep>) returns (ok: bool,
      ghost created: set<Client>)
    requires dict.entries == [] && reg.alias.Keys <= reg.installed
    modifies reg, dict
    ensures ok <==> AllSucceed(plan, reg.installed)
    ensures forall c :: c in created ==> fresh(c)
    ensures Built(dict.entries, created, reg.alias, old(reg.alias)) && reg.alias.Keys <= reg.installed
    ensures ok ==> Settled(dict.entries, reg.alias, old(reg.alias)) && Described(dict.entries) == OutputsOf(plan)
    ensures ok ==> reg.serverless == ServerlessAfter(plan, old(reg.serverless))
    ensures !ok ==> AllButOne(dict.entries, created, reg.alias, HalfRegistered(plan, reg.installed))
    ensures Elastic !in reg.installed ==> reg.serverless == old(reg.serverless)
    ensures forall c: Client | Any(c) :: fresh(c) ==> c in created
    ensures forall h: LogHandler | Any(h) :: !fresh(h)
  {
    created := {};
    ghost var before := reg.alias;
    assert Described(dict.entries) == [] == OutputsOf(plan[..0]);
    assert ServerlessAfter(plan[..0], reg.serverless) == reg.serverless;
    assert Built(dict.entries, created, reg.alias, before) && Settled(dict.entries, reg.alias, before);
    assert AllSucceed(plan[..0], reg.installed);
    hide Built, Settled, Described, OutputsOf, ServerlessAfter, AllSucceed;
    for i := 0 to |plan|
      invariant AllSucceed(plan[..i], reg.installed)
      invariant forall c: Client | Any(c) :: fresh(c) ==> c in created
      invariant forall h: LogHandler | Any(h) :: !fresh(h)
      invariant forall c :: c in created ==> fresh(c)
      invariant Built(dict.entries, created, reg.alias, before) && reg.alias.Keys <= reg.installed
      invariant Settled(dict.entries, reg.alias, before) && Described(dict.entries) == OutputsOf(plan[..i])
      invariant reg.serverless == ServerlessAfter(plan[..i], old(reg.serverless))
      invariant Elastic !in reg.installed ==> reg.serverless == old(reg.serverless)
    {
      PlanOneMore(plan, i, reg.installed, old(reg.serverless));
      ok, created := TakeStep(reg, dict, plan[i], before, created);
      if !ok {
        HalfRegisteredAt(plan, i, reg.installed);
        return;
      }
    }
    assert plan[..|plan|] == plan;
    ok := true;
  }

  lemma ConnectionsAppend(entries: seq<Output>, output: Output)
    ensures Connections(entries + [output]) == Connections(entries) + {output.Connection()}
    ensures forall b, c :: Owned(entries, b, c) ==> Owned(entries + [output], b, c)
    ensures output.Search? ==> Owned(entries + [output], output.handle.backend, output.handle.connection)
  {
    var longer := entries + [output];
    forall c | c in Connections(entries) + {output.Connection()} ensures c in Connections(longer) {
      if c == output.Connection() {
        assert longer[|entries|] == output;
      } else {
        var i :| 0 <= i < |entries| && entries[i].Connection() == c;
        assert longer[i] == entries[i];
      }
    }
    forall b, c | Owned(entries, b, c) ensures Owned(longer, b, c) {
      var i :| 0 <= i < |entries| && entries[i].Owns(b, c);
      assert longer[i].Owns(b, c);
    }
    if output.Search? {
      assert longer[|entries|].Owns(output.handle.backend, output.handle.connection);
    }
  }

  lemma PlainAdded(entries: seq<Output>, client: Client, created: set<Client>, alias: map<Backend, Client>,
      before: map<Backend, Client>)
    requires Built(entries, created, alias, before) && Settled(entries, alias, before) && client.open
    ensures Built(entries + [Plain(client)], created + {client}, alias, before)
    ensures Settled(entries + [Plain(client)], alias, before)
    ensures Described(entries + [Plain(client)]) == Described(entries) + [PlainOutput(client.hasClose)]
  {
    ConnectionsAppend(entries, Plain(client));
    assert Described(entries + [Plain(client)]) == Described(entries) + [PlainOutput(client.hasClose)];
  }

  /** A search client that is registered but not yet in the dictionary. */
  lemma Registered(entries: seq<Output>, backend: Backend, connection: Client, created: set<Client>,
      alias: map<Backend, Client>, before: map<Backend, Client>)
    requires Built(entries, created, alias, before) && Settled(entries, alias, before) && connection.open
    requires connection !in created && connection !in before.Values
    ensures Built(entries, created + {connection}, alias[backend := connection], before)
  {
    var alias' := alias[backend := connection];
    assert backend in before ==> before[backend] in before.Values;
    assert alias'[backend] == connection && connection in Newcomers(alias', before);
    forall c | c in created ensures c in Connections(entries) {
      if c in Newcomers(alias, before) {
        var b :| b in alias && !(b in before && before[b] == alias[b]) && alias[b] == c;
        assert Lookup(alias, b) != Lookup(before, b);
        var i :| 0 <= i < |entries| && entries[i].Owns(b, alias[b]);
        assert entries[i].Connection() == c;
      }
    }
    forall b ensures Lookup(alias', b) == Lookup(before, b) || (b in alias' && alias'[b] in created + {connection}) {
      assert Lookup(alias, b) == Lookup(before, b) || (b in alias && alias[b] in created);
    }
  }

  lemma SearchAdded(entries: seq<Output>, handle: SearchHandle, created: set<Client>, alias: map<Backend, Client>,
      before: map<Backend, Client>)
    requires Built(entries, created, alias, before) && Settled(entries, alias, before)
    requires handle.connection.open && handle.connection !in created && handle.connection !in before.Values
    ensures var entries', alias' := entries + [Search(handle)], alias[handle.backend := handle.connection];
      && Built(entries', created + {handle.connection}, alias', before)
      && Settled(entries', alias', before)
      && Described(entries') == Described(entries) + [SearchOutput(handle.backend)]
  {
    var entries', alias' := entries + [Search(handle)], alias[handle.backend := handle.connection];
    Registered(entries, handle.backend, handle.connection, created, alias, before);
    ConnectionsAppend(entries, Search(handle));
    assert Described(entries') == Described(entries) + [SearchOutput(handle.backend)];
  }

  /* ---------- All-or-nothing initialization ---------- */

  /**
   `_init_output_clients`: every configured client, or nothing. On failure what was built is closed and both
   aliases and the serverless flag are put back -- even when the teardown itself is interrupted. Only a client that
   a failing step had registered can stay open, if its own close is interrupted. Since nothing but the registry may
   be modified, the clients that were there before are never touched.
   */
  method InitOutputClients(reg: Registry, plan: seq<BuildStep>, interrupt: Interrupt, closing: set<Backend>)
    returns (r: Option<ClientDict>, ghost created: set<Client>)
    requires reg.alias.Keys <= reg.installed
    modifies reg
    ensures r.Some? <==> AllSucceed(plan, reg.installed)
    ensures forall c :: c in created ==> fresh(c)
    ensures r.None? ==> reg.alias == old(reg.alias) && reg.serverless == old(reg.serverless)
    ensures r.None? && interrupt == Never ==>
      var half := HalfRegistered(plan, reg.installed);
      && (half.None? || half.value in closing ==> forall c :: c in created ==> c.Closed())
      && (forall c, d :: c in created && d in created && !c.Closed() && !d.Closed() ==> c == d)
    ensures r.Some? ==> fresh(r.value) && reg.alias.Keys <= reg.installed
    ensures r.Some? ==> Built(r.value.entries, created, reg.alias, old(reg.alias))
    ensures r.Some? ==> Settled(r.value.entries, reg.alias, old(reg.alias))
    ensures r.Some? ==> Described(r.value.entries) == OutputsOf(plan)
    ensures r.Some? ==> reg.serverless == ServerlessAfter(plan, old(reg.serverless))
    ensures Elastic !in reg.installed ==> reg.serverless == old(reg.serverless)
    ensures forall c: Client | Any(c) :: fresh(c) ==> c in created
    ensures forall h: LogHandler | Any(h) :: !fresh(h)
  {
    ghost var before, serverless := reg.alias, reg.serverless;
    var previousSearchState := SearchAliasSnapshot(reg);
    var clients := new ClientDict();
    var ok;
    ok, created := BuildOutputClients(reg, clients, plan);
    if ok {
      return Some(clients), created;
    }
    ghost var entries, alias, half := clients.entries, reg.alias, HalfRegistered(plan, reg.installed);
    var _ := CloseOutputClients(clients, reg, interrupt);
    ghost var taken := reg.alias;
    RestIsRestored(entries, created, alias, before, taken);
    LastOneIsRestored(entries, created, alias, before, taken, half);
    RestoreSearchAliases(reg, previousSearchState, closing, before, serverless);
    r := None;
  }

  /* ---------- The module state that the loaders write ---------- */

  /** What a loader reads: everything, or an error after part of it. */
  datatype Load<+T> = Loaded(value: T) | Broken(partial: T)

  type DnsEntries = map<string, string>

  class PslOverrides {
    var items: seq<string>
  }

  class DnsMap {
    var entries: DnsEntries
  }

  class UtilsGlobals {
    const pslOverrides: PslOverrides
    var ipDbPath: Option<string>
    var ipinfoToken: Option<string>

    constructor (pslOverrides: PslOverrides)
      ensures this.pslOverrides == pslOverrides
      ensures forall o: object | Any(o) :: fresh(o) ==> o == this
    {
      this.pslOverrides := pslOverrides;
      ipDbPath, ipinfoToken := None, None;
    }

    /** Clears the one shared list and refills it in place. */
    method LoadPslOverrides(outcome: Load<seq<string>>) returns (ok: bool)
      modifies pslOverrides
      ensures ok == outcome.Loaded?
      ensures pslOverrides.items == if outcome.Loaded? then outcome.value else outcome.partial
      ensures forall o: object | Any(o) :: !fresh(o)
    {
      pslOverrides.items := [];
      match outcome {
        case Loaded(value) => pslOverrides.items := pslOverrides.items + value; return true;
        case Broken(partial) => pslOverrides.items := pslOverrides.items + partial; return false;
      }
    }

    /** Reloads the overrides first, then clears and refills the map it is handed. */
    method LoadReverseDnsMap(dnsMap: DnsMap, psl: Load<seq<string>>, outcome: Load<DnsEntries>) returns (ok: bool)
      modifies pslOverrides, dnsMap
      ensures ok == (psl.Loaded? && outcome.Loaded?)
      ensures pslOverrides.items == if psl.Loaded? then psl.value else psl.partial
      ensures dnsMap.entries ==
        if psl.Broken? then old(dnsMap.entries) else if outcome.Loaded? then outcome.value else outcome.partial
      ensures forall o: object | Any(o) :: !fresh(o)
    {
      ok := LoadPslOverrides(psl);
      if !ok {
        return;
      }
      dnsMap.entries := map[];
      match outcome {
        case Loaded(value) => dnsMap.entries := value;
        case Broken(partial) => dnsMap.entries := partial; ok := false;
      }
    }

    method LoadIpDb(path: Option<string>) returns (ok: bool)
      modifies this`ipDbPath
      ensures ok == path.Some?
      ensures ipDbPath == if path.Some? then path else old(ipDbPath)
      ensures forall o: object | Any(o) :: !fresh(o)
    {
      if path.None? {
        return false;
      }
      ipDbPath := path;
      return true;
    }

    /** The token is assigned before the probe that may fail. */
    method ConfigureIpinfoApi(token: Option<string>, probeRaises: bool) returns (ok: bool)
      modifies this`ipinfoToken
      ensures ok == !probeRaises && ipinfoToken == token
      ensures forall o: object | Any(o) :: !fresh(o)
    {
      ipinfoToken := token;
      ok := !probeRaises;
    }

    /** The three loaders in the order in which a reload runs them, up to the first that raises. */
    method LoadAll(dnsMap: DnsMap, psl: Load<seq<string>>, dns: Load<DnsEntries>, ipDb: Option<string>,
        token: Option<string>, probeRaises: bool) returns (ok: bool)
      modifies this, pslOverrides, dnsMap
      ensures ok == (psl.Loaded? && dns.Loaded? && ipDb.Some? && !probeRaises)
      ensures ok ==> SavedUtils(pslOverrides.items, ipDbPath, ipinfoToken) == SavedUtils(psl.value, ipDb, token)
      ensures ok ==> dnsMap.entries == dns.value
      ensures forall o: object | Any(o) :: !fresh(o)
    {
      ok := LoadReverseDnsMap(dnsMap, psl, dns);
      if !ok {
        return;
      }
      ok := LoadIpDb(ipDb);
      if !ok {
        return;
      }
      ok := ConfigureIpinfoApi(token, probeRaises);
    }

    method Snapshot() returns (saved: SavedUtils)
      ensures saved == SavedUtils(pslOverrides.items, ipDbPath, ipinfoToken)
      ensures forall o: object | Any(o) :: !fresh(o)
    {
      saved := SavedUtils(pslOverrides.items, ipDbPath, ipinfoToken);
    }

    method Restore(saved: SavedUtils)
      modifies this, pslOverrides
      ensures SavedUtils(pslOverrides.items, ipDbPath, ipinfoToken) == saved
      ensures forall o: object | Any(o) :: !fresh(o)
    {
      pslOverrides.items := saved.psl;
      ipDbPath := saved.ipDbPath;
      ipinfoToken := saved.ipinfoToken;
    }
  }

  datatype SavedUtils = SavedUtils(psl: seq<string>, ipDbPath: Option<string>, ipinfoToken: Option<string>)

  class LogHandler {
    var open: bool

    constructor ()
      ensures open
      ensures forall o: object | Any(o) :: fresh(o) ==> o == this
    {
      open := true;
    }
  }

  function Handlers(handlers: seq<LogHandler>): (r: set<LogHandler>) {
    set h | h in handlers
  }

  /* ---------- The watcher ---------- */

  type Options = map<string, string>

  datatype WatchParameters = WatchParameters(batchSize: int, checkTimeout: int, maxUnsavedRetries: int)

  /** One reload request and what becomes of each of its steps. */
  datatype ReloadPlan = ReloadPlan(configLoads: bool, opts: Options, domainMap: nat, build: seq<BuildStep>,
    valuesConvert: bool, watch: WatchParameters, logFile: Option<string>, logOpens: bool,
    psl: Load<seq<string>>, dns: Load<DnsEntries>, ipDb: Option<string>, token: Option<string>, probeRaises: bool)

  /** Everything a running configuration consists of, except the clients themselves. */
  datatype Config = Config(opts: Options, domainMap: nat, watch: WatchParameters, logFile: Option<string>,
    dns: DnsEntries, utils: SavedUtils, serverless: bool)

  predicate OpensLog(c: Config, plan: ReloadPlan) {
    c.logFile != plan.logFile && plan.logFile.Some?
  }

  predicate PlanSucceeds(c: Config, plan: ReloadPlan, installed: set<Backend>) {
    && plan.configLoads && AllSucceed(plan.build, installed) && plan.valuesConvert
    && (OpensLog(c, plan) ==> plan.logOpens)
    && plan.psl.Loaded? && plan.dns.Loaded? && plan.ipDb.Some? && !plan.probeRaises
  }

  /** The configuration after a reload: the new one if every step succeeds, otherwise the old one. */
  function Apply(c: Config, plan: ReloadPlan, installed: set<Backend>): Config {
    if PlanSucceeds(c, plan, installed) then
      Config(c.opts + plan.opts, plan.domainMap, plan.watch, plan.logFile, plan.dns.value,
             SavedUtils(plan.psl.value, plan.ipDb, plan.token), ServerlessAfter(plan.build, c.serverless))
    else c
  }

  /** Whether a step of the plan fails of itself. */
  predicate StepFails(step: BuildStep, installed: set<Backend>) {
    || step == Require(false)
    || (step.MakePlain? && !step.succeeds)
    || (step.MakeSearch? && (step.backend !in installed || step.outcome != Ready))
  }

  lemma WhatStepsDo(plan: seq<BuildStep>, installed: set<Backend>)
    ensures AllSucceed(plan, installed) <==> forall step :: step in plan ==> !StepFails(step, installed)
  {
    assert forall i :: 0 <= i < |plan| ==> plan[i] in plan;
    assert forall step :: step in plan ==> (Succeeds(step, installed) <==> !StepFails(step, installed));
  }

  /** When a plan succeeds and what comes of it, spelled out. */
  lemma WhatReloadsDo(c: Config, plan: ReloadPlan, installed: set<Backend>)
    ensures PlanSucceeds(c, plan, installed) <==>
      && plan.configLoads && (forall step :: step in plan.build ==> !StepFails(step, installed)) && plan.valuesConvert
      && (c.logFile == plan.logFile || plan.logFile.None? || plan.logOpens)
      && plan.psl.Loaded? && plan.dns.Loaded? && plan.ipDb.Some? && !plan.probeRaises
    ensures !PlanSucceeds(c, plan, installed) ==> Apply(c, plan, installed) == c
    ensures PlanSucceeds(c, plan, installed) ==>
      var after := Apply(c, plan, installed);
      && after.opts == c.opts + plan.opts && after.domainMap == plan.domainMap && after.watch == plan.watch
      && after.logFile == plan.logFile && after.dns == plan.dns.value
      && after.utils == SavedUtils(plan.psl.value, plan.ipDb, plan.token)
      && (forall i :: IsLastElastic(plan.build, i) ==> after.serverless == plan.build[i].serverless)
      && ((forall i :: 0 <= i < |plan.build| ==> !MakesElastic(plan.build[i])) ==> after.serverless == c.serverless)
  {
    LastElasticDecides(plan.build, c.serverless);
    WhatStepsDo(plan.build, installed);
    hide AllSucceed, StepFails, ServerlessAfter;
  }

  method CloseAll(handlers: seq<LogHandler>)
    modifies Handlers(handlers)
    ensures forall h :: h in handlers ==> !h.open
    ensures forall o: object | Any(o) :: !fresh(o)
  {
    for i := 0 to |handlers|
      invariant forall k :: 0 <= k < i ==> !handlers[k].open
      invariant forall o: object | Any(o) :: !fresh(o)
    {
      handlers[i].open := false;
    }
  }

  /** Once the old clients are closed, only aliases the new dictionary owns are left. */
  lemma OnlyNewAliases(old_: seq<Output>, new_: seq<Output>, created: set<Client>, before: map<Backend, Client>,
      alias: map<Backend, Client>, after: map<Backend, Client>)
    requires Connections(old_) !! created && Connections(new_) <= created
    requires forall b :: b in before ==> Owned(old_, b, before[b])
    requires Settled(new_, alias, before) && AliasesReleased(alias, after, old_)
    ensures forall b :: b in after ==> Owned(new_, b, after[b])
    ensures after.Keys <= alias.Keys
  {
    forall b | b in after ensures Owned(new_, b, after[b]) {
      if SearchOutput(b) !in Described(new_) {
        assert Lookup(alias, b) == Lookup(before, b);
      }
    }
  }

  lemma OnlyOwnedAliases(entries: seq<Output>, alias: map<Backend, Client>)
    requires Settled(entries, alias, map[])
    ensures forall b :: b in alias ==> Owned(entries, b, alias[b])
  {
    forall b | b in alias ensures Owned(entries, b, alias[b]) {
      if SearchOutput(b) !in Described(entries) {
        assert Lookup(alias, b) == Lookup(map[], b);
      }
    }
  }

  /** The attached handlers once the log file is `now`: others only if that is a change. */
  function HandlersOf(before: seq<LogHandler>, was: Option<string>, now: Option<string>,
      staged: Option<LogHandler>): seq<LogHandler>
  {
    if was == now then before else if staged.Some? then [staged.value] else []
  }

  class Watcher {
    const reg: Registry
    const utils: UtilsGlobals
    const dnsMap: DnsMap
    var clients: ClientDict
    var opts: Options
    var domainMap: nat
    var watch: WatchParameters
    var logFile: Option<string>
    var fileHandlers: seq<LogHandler>
    ghost var everClients: set<Client>        // every client that was ever constructed for this process
    ghost var everHandlers: set<LogHandler>   // every log file handler that was ever opened

    /** Every client in use is open, and every client ever constructed that is not in use is closed. */
    ghost predicate ClientsAccounted()
      reads this`clients, this`everClients, clients, everClients
    {
      && Connections(clients.entries) <= everClients
      && (forall c :: c in Connections(clients.entries) ==> c.open)
      && (forall c :: c in everClients ==> c in Connections(clients.entries) || c.Closed())
    }

    ghost predicate HandlersAccounted()
      reads this`fileHandlers, this`everHandlers, everHandlers
    {
      && (forall h :: h in fileHandlers ==> h in everHandlers && h.open)
      && (forall h :: h in everHandlers ==> h in fileHandlers || !h.open)
    }

    ghost predicate AliasesOwned(alias: map<Backend, Client>)
      reads this`clients, clients
    {
      alias.Keys <= reg.installed && forall b :: b in alias ==> Owned(clients.entries, b, alias[b])
    }

    ghost predicate Valid()
      reads this, reg, clients, everClients, everHandlers
    {
      AliasesOwned(reg.alias) && ClientsAccounted() && HandlersAccounted()
    }

    function Running(): Config
      reads this`opts, this`domainMap, this`watch, this`logFile, reg`serverless, utils, utils.pslOverrides, dnsMap
    {
      Config(opts, domainMap, watch, logFile, dnsMap.entries,
             SavedUtils(utils.pslOverrides.items, utils.ipDbPath, utils.ipinfoToken), reg.serverless)
    }

    /** Startup, with the clients `_init_output_clients` has just built. */
    constructor (reg: Registry, dict: ClientDict, utils: UtilsGlobals, dnsMap: DnsMap, opts: Options, domainMap: nat,
        watch: WatchParameters, logFile: Option<string>, handler: Option<LogHandler>, ghost created: set<Client>)
      requires reg.alias.Keys <= reg.installed
      requires (handler.Some? <==> logFile.Some?) && (handler.Some? ==> handler.value.open)
      requires Built(dict.entries, created, reg.alias, map[]) && Settled(dict.entries, reg.alias, map[])
      ensures Valid() && fresh(this) && clients == dict && everClients == created
      ensures this.reg == reg && this.utils == utils && this.dnsMap == dnsMap
      ensures forall o: object | Any(o) :: fresh(o) ==> o == this
      ensures this.opts == opts && this.domainMap == domainMap && this.watch == watch && this.logFile == logFile
      ensures fileHandlers == (if handler.Some? then [handler.value] else [])
      ensures everHandlers == if handler.Some? then {handler.value} else {}
    {
      this.reg, this.utils, this.dnsMap := reg, utils, dnsMap;
      clients := dict;
      this.opts, this.domainMap, this.watch := opts, domainMap, watch;
      this.logFile, fileHandlers := logFile, if handler.Some? then [handler.value] else [];
      everClients, everHandlers := created, if handler.Some? then {handler.value} else {};
      new;
      OnlyOwnedAliases(dict.entries, reg.alias);
      EverythingInDict(dict.entries, created, reg.alias, map[]);
    }

    /** What phase 1 leaves behind: new clients holding their aliases, or no trace in the registry at all. */
    ghost predicate Staged(dict: ClientDict, created: set<Client>, before: map<Backend, Client>, serverless: bool)
      reads reg, dict, created
    {
      && reg.alias.Keys <= reg.installed
      && (|| (Built(dict.entries, created, reg.alias, before) && Settled(dict.entries, reg.alias, before))
          || (dict.entries == [] && reg.alias == before && reg.serverless == serverless &&
            forall c :: c in created ==> c.Closed()))
    }

    /** Phase 1: every step that can fail, none of which writes what the running configuration reads. */
    method Stage(plan: ReloadPlan) returns (ok: bool, newClients: ClientDict, staged: Option<LogHandler>,
        stagedDns: DnsMap,
        ghost created: set<Client>)
      requires reg.alias.Keys <= reg.installed
      modifies reg, utils, utils.pslOverrides
      ensures ok <==> PlanSucceeds(old(Running()), plan, reg.installed)
      ensures fresh(newClients) && fresh(stagedDns) && forall c :: c in created ==> fresh(c)
      ensures Staged(newClients, created, old(reg.alias), old(reg.serverless)) && reg.alias.Keys <= reg.installed
      ensures Elastic !in reg.installed ==> reg.serverless == old(reg.serverless)
      ensures staged.Some? ==> fresh(staged.value) && staged.value.open
      ensures ok ==> (staged.Some? <==> OpensLog(old(Running()), plan))
      ensures ok ==> Settled(newClients.entries, reg.alias, old(reg.alias))
      ensures ok ==> Described(newClients.entries) == OutputsOf(plan.build)
      ensures ok ==> Built(newClients.entries, created, reg.alias, old(reg.alias))
      ensures ok ==> reg.serverless == ServerlessAfter(plan.build, old(reg.serverless))
      ensures ok ==> Running().utils == SavedUtils(plan.psl.value, plan.ipDb, plan.token)
      ensures ok ==> stagedDns.entries == plan.dns.value
      ensures forall c: Client | Any(c) :: fresh(c) ==> c in created
      ensures forall h: LogHandler | Any(h) :: fresh(h) ==> staged == Some(h)
    {
      hide Built, Settled, Described, OutputsOf, ServerlessAfter, AllSucceed, Connections, Newcomers, Owned, Lookup;
      newClients := new ClientDict();
      stagedDns := new DnsMap;
      stagedDns.entries := map[];
      staged, created, ok := None, {}, false;
      if !plan.configLoads {
        return;
      }
      var built;
      EveryBackend();
      built, created := InitOutputClients(reg, plan.build, Never, ALL_BACKENDS);
      if built.None? {
        return;
      }
      newClients := built.value;
      if !plan.valuesConvert {
        return;
      }
      if logFile != plan.logFile && plan.logFile.Some? {
        if !plan.logOpens {
          return;
        }
        var handler := new LogHandler();
        staged := Some(handler);
      }
      ok := utils.LoadAll(stagedDns, plan.psl, plan.dns, plan.ipDb, plan.token, plan.probeRaises);
    }

    /** Undoes phase 1: new clients first, then the aliases, then the loaders' globals. */
    method Rollback(newClients: ClientDict, staged: Option<LogHandler>, snapshot: seq<SavedAlias>, saved: SavedUtils,
        ghost created: set<Client>, ghost before: map<Backend, Client>, ghost serverless: bool)
      requires Staged(newClients, created, before, serverless)
      requires snapshot == SnapshotOf(reg.installed, before, serverless) && before.Keys <= reg.installed
      requires Elastic !in reg.installed ==> reg.serverless == serverless
      modifies reg, newClients, created, utils, utils.pslOverrides, if staged.Some? then {staged.value} else {}
      ensures reg.alias == before && reg.serverless == serverless
      ensures SavedUtils(utils.pslOverrides.items, utils.ipDbPath, utils.ipinfoToken) == saved
      ensures forall c :: c in created ==> c.Closed()
      ensures staged.Some? ==> !staged.value.open
      ensures forall o: object | Any(o) :: !fresh(o)
    {
      hide Settled, Described, SnapshotOf, Owned, Newcomers, Connections, Lookup;
      ghost var entries, alias := newClients.entries, reg.alias;
      ghost var live := if Traced(entries, created, alias, before) then created else {};
      NothingTraced(before);
      assert Traced(entries, live, alias, before) && Connections(entries) <= live;
      hide Traced;
      var _ := CloseOutputClients(newClients, reg, Never);
      RestIsRestored(entries, live, alias, before, reg.alias);
      if staged.Some? {
        staged.value.open := false;
      }
      ghost var taken := reg.alias;
      RestoreSearchAliases(reg, snapshot, ALL_BACKENDS, before, serverless);
      AllNewcomersClosed(taken, before);
      utils.Restore(saved);
    }

    /** The log part of phase 2: a changed log file replaces the attached handlers by the staged one. */
    method SwitchLog(newLogFile: Option<string>, staged: Option<LogHandler>)
      requires HandlersAccounted()
      requires staged.Some? <==> logFile != newLogFile && newLogFile.Some?
      requires staged.Some? ==> staged.value !in everHandlers && staged.value.open
      modifies this`logFile, this`fileHandlers, this`everHandlers, Handlers(fileHandlers)
      ensures HandlersAccounted() && logFile == newLogFile
      ensures fileHandlers == HandlersOf(old(fileHandlers), old(logFile), newLogFile, staged)
      ensures everHandlers == old(everHandlers) + if staged.Some? then {staged.value} else {}
      ensures forall o: object | Any(o) :: !fresh(o)
    {
      if logFile != newLogFile {
        CloseAll(fileHandlers);
        fileHandlers := if staged.Some? then [staged.value] else [];
        logFile := newLogFile;
      }
      everHandlers := everHandlers + if staged.Some? then {staged.value} else {};
    }

    /** Phase 2: assignments only, in place where others hold a reference. */
    method Commit(plan: ReloadPlan, newClients: ClientDict, stagedDns: DnsMap)
      requires stagedDns != dnsMap
      modifies this`clients, this`opts, this`domainMap, this`watch, dnsMap
      ensures clients == newClients
      ensures Running() == old(Running()).(opts := old(opts) + plan.opts, domainMap := plan.domainMap,
        watch := plan.watch,
        dns := old(stagedDns.entries))
      ensures forall o: object | Any(o) :: !fresh(o)
    {
      dnsMap.entries := map[];
      dnsMap.entries := dnsMap.entries + stagedDns.entries;
      opts := opts + plan.opts;
      clients := newClients;
      domainMap, watch := plan.domainMap, plan.watch;
    }

    /** Phase 3: the clients that were replaced go. */
    method Retire(oldClients: ClientDict, ghost created: set<Client>, ghost before: map<Backend, Client>)
      requires oldClients != clients && created !! everClients && Connections(oldClients.entries) <= everClients
      requires forall b :: b in before ==> Owned(oldClients.entries, b, before[b])
      requires forall c :: c in everClients ==> c in Connections(oldClients.entries) || c.Closed()
      requires Built(clients.entries, created, reg.alias, before) && Settled(clients.entries, reg.alias, before)
      requires reg.alias.Keys <= reg.installed
      modifies this`everClients, reg`alias, oldClients, Connections(oldClients.entries)
      ensures AliasesOwned(reg.alias) && ClientsAccounted()
      ensures everClients == old(everClients) + created && Connections(clients.entries) == created
      ensures forall o: object | Any(o) :: !fresh(o)
    {
      ghost var entries, alias := oldClients.entries, reg.alias;
      EverythingInDict(clients.entries, created, reg.alias, before);
      hide Newcomers;
      var _ := CloseOutputClients(oldClients, reg, Never);
      OnlyNewAliases(entries, clients.entries, created, before, alias, reg.alias);
      hide Settled, AliasesReleased, Owned, Described;
      everClients := everClients + created;
    }

    /** The three phases, as the specification puts them. */
    method Exchange(plan: ReloadPlan) returns (ok: bool, staged: Option<LogHandler>)
      requires Valid()
      modifies this, reg, clients, Connections(clients.entries), Handlers(fileHandlers), dnsMap, utils,
        utils.pslOverrides
      ensures Valid()
      ensures ok <==> PlanSucceeds(old(Running()), plan, reg.installed)
      ensures Running() == Apply(old(Running()), plan, reg.installed)
      ensures !ok ==> reg.alias == old(reg.alias) && clients == old(clients) && clients.entries == old(clients.entries)
      ensures staged.Some? ==> fresh(staged.value)
      ensures ok ==> (staged.Some? <==> OpensLog(old(Running()), plan))
      ensures fileHandlers == if ok then HandlersOf(old(fileHandlers), old(logFile), plan.logFile, staged)
        else old(fileHandlers)
      ensures ok ==> fresh(clients) && Described(clients.entries) == OutputsOf(plan.build)
      ensures ok ==> forall c :: c in Connections(clients.entries) ==> fresh(c)
      ensures clients == old(clients) || fresh(clients)
      ensures forall c :: c in Connections(clients.entries) ==> c in Connections(old(clients.entries)) || fresh(c)
      ensures old(everClients) <= everClients && old(everHandlers) <= everHandlers
      ensures forall c: Client | Any(c) :: fresh(c) ==> c in everClients
      ensures forall h: LogHandler | Any(h) :: fresh(h) ==> h in everHandlers
    {
      hide Built, Settled, Staged, SnapshotOf, Owned, Described, OutputsOf, AllSucceed, ServerlessAfter,
        Connections, Handlers, ClientsAccounted, HandlersAccounted, PlanSucceeds, HandlersOf;
      ghost var before, serverless := reg.alias, reg.serverless;
      var previousSearchState := SearchAliasSnapshot(reg);
      var previousUtilsState := utils.Snapshot();
      var newClients, stagedDns;
      ghost var created;
      ok, newClients, staged, stagedDns, created := Stage(plan);
      if !ok {
        Abandon(newClients, staged, previousSearchState, previousUtilsState, created, before, serverless);
      } else {
        SwitchOver(plan, newClients, staged, stagedDns, created, before);
      }
    }

    /**
     A reload, as the watch loop runs it. Either everything changes to the new configuration, or nothing of
     the old one changes at all.
     */
    method Reload(plan: ReloadPlan) returns (ok: bool)
      requires Valid()
      modifies this, reg, clients, Connections(clients.entries), Handlers(fileHandlers), dnsMap, utils,
        utils.pslOverrides
      ensures Valid()
      ensures ok <==> PlanSucceeds(old(Running()), plan, reg.installed)
      ensures Running() == Apply(old(Running()), plan, reg.installed)
      ensures ok <==>
        && plan.configLoads && (forall step :: step in plan.build ==> !StepFails(step, reg.installed))
        && plan.valuesConvert && (old(logFile) == plan.logFile || plan.logFile.None? || plan.logOpens)
        && plan.psl.Loaded? && plan.dns.Loaded? && plan.ipDb.Some? && !plan.probeRaises
      ensures !ok ==>
        && opts == old(opts) && domainMap == old(domainMap) && watch == old(watch) && logFile == old(logFile)
        && dnsMap.entries == old(dnsMap.entries) && utils.pslOverrides.items == old(utils.pslOverrides.items)
        && utils.ipDbPath == old(utils.ipDbPath) && utils.ipinfoToken == old(utils.ipinfoToken)
        && reg.serverless == old(reg.serverless)
      ensures ok ==>
        && opts == old(opts) + plan.opts && domainMap == plan.domainMap && watch == plan.watch
        && logFile == plan.logFile && dnsMap.entries == plan.dns.value && utils.pslOverrides.items == plan.psl.value
        && utils.ipDbPath == plan.ipDb && utils.ipinfoToken == plan.token
        && (forall i :: IsLastElastic(plan.build, i) ==> reg.serverless == plan.build[i].serverless)
        && ((forall i :: 0 <= i < |plan.build| ==> !MakesElastic(plan.build[i])) ==>
          reg.serverless == old(reg.serverless))
      ensures !ok ==> reg.alias == old(reg.alias) && clients == old(clients) && clients.entries == old(clients.entries)
      ensures !ok || old(logFile) == plan.logFile ==> fileHandlers == old(fileHandlers)
      ensures ok && old(logFile) != plan.logFile ==>
        |fileHandlers| == (if plan.logFile.Some? then 1 else 0) && forall h :: h in fileHandlers ==> fresh(h)
      ensures ok ==> fresh(clients) && Described(clients.entries) == OutputsOf(plan.build)
      ensures ok ==> forall c :: c in Connections(clients.entries) ==> fresh(c)
      ensures clients == old(clients) || fresh(clients)
      ensures forall c :: c in Connections(clients.entries) ==> c in Connections(old(clients.entries)) || fresh(c)
      ensures forall h :: h in Handlers(fileHandlers) ==> h in Handlers(old(fileHandlers)) || fresh(h)
      ensures old(everClients) <= everClients && old(everHandlers) <= everHandlers
      ensures forall c: Client | Any(c) :: fresh(c) ==> c in everClients
      ensures forall h: LogHandler | Any(h) :: fresh(h) ==> h in everHandlers
      ensures ok ==> forall c :: c in Connections(old(clients.entries)) && c.hasClose ==> !c.open
    {
      WhatReloadsDo(Running(), plan, reg.installed);
      hide PlanSucceeds, Apply, StepFails, IsLastElastic, MakesElastic, Connections, Described, OutputsOf, Owned;
      var staged;
      ok, staged := Exchange(plan);
    }

    /** The way out of the program: after it nothing the process ever opened towards an output is open. */
    method Shutdown()
      requires Valid()
      modifies reg`alias, clients, Connections(clients.entries)
      ensures reg.alias == map[] && clients.entries == []
      ensures forall c :: c in everClients ==> c.Closed()
      ensures forall o: object | Any(o) :: !fresh(o)
    {
      var _ := CloseOutputClients(clients, reg, Never);
      assert forall b: Backend :: b !in reg.alias;
    }

    /** The failed reload's clients and handler go, and are remembered as closed. */
    method Abandon(newClients: ClientDict, staged: Option<LogHandler>, snapshot: seq<SavedAlias>, saved: SavedUtils,
        ghost created: set<Client>, ghost before: map<Backend, Client>, ghost serverless: bool)
      requires Staged(newClients, created, before, serverless) && AliasesOwned(before)
      requires ClientsAccounted() && HandlersAccounted()
      requires newClients != clients && created !! everClients && (staged.Some? ==> staged.value !in everHandlers)
      requires snapshot == SnapshotOf(reg.installed, before, serverless)
      requires Elastic !in reg.installed ==> reg.serverless == serverless
      modifies this`everClients, this`everHandlers, reg, newClients, created, utils, utils.pslOverrides,
        if staged.Some? then {staged.value} else {}
      ensures Valid() && reg.alias == before && reg.serverless == serverless
      ensures clients.entries == old(clients.entries)
      ensures SavedUtils(utils.pslOverrides.items, utils.ipDbPath, utils.ipinfoToken) == saved
      ensures everClients == old(everClients) + created
      ensures everHandlers == old(everHandlers) + if staged.Some? then {staged.value} else {}
      ensures forall o: object | Any(o) :: !fresh(o)
    {
      hide Staged, SnapshotOf, Owned;
      Rollback(newClients, staged, snapshot, saved, created, before, serverless);
      everClients := everClients + created;
      everHandlers := everHandlers + if staged.Some? then {staged.value} else {};
    }

    /** The clients' part of phases 2 and 3. */
    method SwitchClients(plan: ReloadPlan, newClients: ClientDict, stagedDns: DnsMap,
        ghost created: set<Client>, ghost before: map<Backend, Client>)
      requires Built(newClients.entries, created, reg.alias, before) && Settled(newClients.entries, reg.alias, before)
      requires reg.alias.Keys <= reg.installed && AliasesOwned(before) && ClientsAccounted()
      requires newClients != clients && created !! everClients && stagedDns != dnsMap
      modifies this`clients, this`opts, this`domainMap, this`watch, this`everClients, reg`alias, dnsMap, clients,
        Connections(clients.entries)
      ensures AliasesOwned(reg.alias) && ClientsAccounted()
      ensures clients == newClients && clients.entries == old(newClients.entries)
      ensures Running() == old(Running()).(opts := old(opts) + plan.opts, domainMap := plan.domainMap,
        watch := plan.watch,
        dns := old(stagedDns.entries))
      ensures everClients == old(everClients) + created && Connections(clients.entries) == created
      ensures forall o: object | Any(o) :: !fresh(o)
    {
      hide Owned, Settled, Built, Newcomers, Lookup, Described;
      var oldClients := clients;
      Commit(plan, newClients, stagedDns);
      Retire(oldClients, created, before);
    }

    /** Phases 2 and 3. */
    method SwitchOver(plan: ReloadPlan, newClients: ClientDict, staged: Option<LogHandler>, stagedDns: DnsMap,
        ghost created: set<Client>, ghost before: map<Backend, Client>)
      requires Built(newClients.entries, created, reg.alias, before) && Settled(newClients.entries, reg.alias, before)
      requires reg.alias.Keys <= reg.installed && AliasesOwned(before)
      requires ClientsAccounted() && HandlersAccounted()
      requires newClients != clients && created !! everClients && stagedDns != dnsMap
      requires staged.Some? <==> OpensLog(Running(), plan)
      requires staged.Some? ==> staged.value !in everHandlers && staged.value.open
      modifies this, reg`alias, dnsMap, clients, Connections(clients.entries), Handlers(fileHandlers)
      ensures Valid() && clients == newClients && clients.entries == old(newClients.entries)
      ensures Running() == old(Running()).(opts := old(opts) + plan.opts, domainMap := plan.domainMap,
        watch := plan.watch,
        logFile := plan.logFile, dns := old(stagedDns.entries))
      ensures fileHandlers == HandlersOf(old(fileHandlers), old(logFile), plan.logFile, staged)
      ensures everClients == old(everClients) + created && Connections(clients.entries) == created
      ensures everHandlers == old(everHandlers) + if staged.Some? then {staged.value} else {}
      ensures forall o: object | Any(o) :: !fresh(o)
    {
      hide Owned, Settled, Built, Newcomers, Lookup, Described, Connections, ClientsAccounted, AliasesOwned,
        HandlersAccounted;
      SwitchClients(plan, newClients, stagedDns, created, before);
      SwitchLog(plan.logFile, staged);
    }
  }

  /**
   Startup: a watcher, or a failure that leaves no alias and no open client behind. A log file that does not open is
   no failure here.
   */
  method Start(reg: Registry, build: seq<BuildStep>, utils: UtilsGlobals, dnsMap: DnsMap, opts: Options,
      domainMap: nat, watch: WatchParameters, logFile: Option<string>, logOpens: bool)
    returns (w: Option<Watcher>, ghost created: set<Client>)
    requires reg.alias == map[]
    modifies reg
    ensures w.Some? <==> AllSucceed(build, reg.installed)
    ensures w.Some? ==> w.value.Valid() && fresh(w.value) && w.value.reg == reg && w.value.everClients == created
    ensures w.Some? ==> Described(w.value.clients.entries) == OutputsOf(build)
    ensures w == None ==> reg.alias == map[] && forall c :: c in created ==> c.Closed()
    ensures forall c: Client | Any(c) :: fresh(c) ==> c in created
    ensures w.Some? ==> forall h: LogHandler | Any(h) :: fresh(h) ==> h in w.value.everHandlers
    ensures w.Some? <==> forall step :: step in build ==> !StepFails(step, reg.installed)
    ensures w.Some? ==> w.value.opts == opts && w.value.domainMap == domainMap && w.value.watch == watch
    ensures w.Some? ==> w.value.logFile == if logOpens then logFile else None
    ensures w.Some? ==> forall h :: h in w.value.fileHandlers ==> fresh(h)
    ensures w.Some? ==> w.value.dnsMap == dnsMap && w.value.utils == utils && fresh(w.value.clients)
    ensures w.Some? ==> Connections(w.value.clients.entries) <= created
    ensures forall c :: c in created ==> fresh(c)
  {
    WhatStepsDo(build, reg.installed);
    hide OutputsOf, AllSucceed, Built, Settled, StepFails;
    var dict;
    var handler: Option<LogHandler> := None;
    if logFile.Some? && logOpens {
      var fileHandler := new LogHandler();
      handler := Some(fileHandler);
    }
    EveryBackend();
    dict, created := InitOutputClients(reg, build, Never, ALL_BACKENDS);
    if dict.None? {
      return None, created;
    }
    var watcher := new Watcher(reg, dict.value, utils, dnsMap, opts, domainMap, watch,
      if logOpens then logFile else None, handler, created);
    return Some(watcher), created;
  }

  function ApplyAll(c: Config, plans: seq<ReloadPlan>, installed: set<Backend>): Config {
    if plans == [] then c
    else Apply(ApplyAll(c, plans[..|plans| - 1], installed), plans[|plans| - 1], installed)
  }

  /** The reloads of a run that succeed in their turn; exactly those that fail are left out. */
  function Erased(c: Config, plans: seq<ReloadPlan>, installed: set<Backend>): (r: seq<ReloadPlan>) {
    if plans == [] then []
    else
      var n := |plans| - 1;
      Erased(c, plans[..n], installed)
      + if PlanSucceeds(ApplyAll(c, plans[..n], installed), plans[n], installed) then [plans[n]] else []
  }

  /**
   Failed reloads leave no trace: a run ends as if they had never been requested, and without them every
   remaining reload still succeeds.
   */
  lemma {:induction false} FailedReloadsLeaveNoTrace(c: Config, plans: seq<ReloadPlan>, installed: set<Backend>)
    ensures ApplyAll(c, Erased(c, plans, installed), installed) == ApplyAll(c, plans, installed)
    ensures forall k :: 0 <= k < |Erased(c, plans, installed)| ==>
      PlanSucceeds(ApplyAll(c, Erased(c, plans, installed)[..k], installed), Erased(c, plans, installed)[k], installed)
  {
    hide PlanSucceeds;
    if plans != [] {
      var n := |plans| - 1;
      FailedReloadsLeaveNoTrace(c, plans[..n], installed);
      var kept, all := Erased(c, plans[..n], installed), Erased(c, plans, installed);
      if PlanSucceeds(ApplyAll(c, plans[..n], installed), plans[n], installed) {
        assert all == kept + [plans[n]];
        assert all[..|kept|] == kept;
        forall k | 0 <= k < |all| ensures PlanSucceeds(ApplyAll(c, all[..k], installed), all[k], installed) {
          if k < |kept| {
            assert all[..k] == kept[..k];
          }
        }
      } else {
        assert all == kept;
      }
    }
  }

  /** Any number of reloads, one after the other. */
  method RunReloads(w: Watcher, plans: seq<ReloadPlan>)
    requires w.Valid()
    modifies w, w.reg, w.clients, Connections(w.clients.entries), Handlers(w.fileHandlers), w.dnsMap, w.utils,
      w.utils.pslOverrides
    ensures w.Valid()
    ensures w.Running() == ApplyAll(old(w.Running()), plans, w.reg.installed)
    ensures old(w.everClients) <= w.everClients
    ensures old(w.everHandlers) <= w.everHandlers
    ensures w.clients == old(w.clients) || fresh(w.clients)
    ensures forall c :: c in Connections(w.clients.entries) ==> c in Connections(old(w.clients.entries)) || fresh(c)
    ensures forall c: Client | Any(c) :: fresh(c) ==> c in w.everClients
    ensures forall h: LogHandler | Any(h) :: fresh(h) ==> h in w.everHandlers
  {
    ghost var start := w.Running();
    assert plans[..0] == [];
    for i := 0 to |plans|
      invariant w.Valid() && w.Running() == ApplyAll(start, plans[..i], w.reg.installed)
      invariant w.clients == old(w.clients) || fresh(w.clients)
      invariant forall c :: c in Connections(w.clients.entries) ==> c in Connections(old(w.clients.entries)) || fresh(c)
      invariant forall h :: h in Handlers(w.fileHandlers) ==> h in Handlers(old(w.fileHandlers)) || fresh(h)
      invariant old(w.everClients) <= w.everClients && old(w.everHandlers) <= w.everHandlers
      invariant forall c: Client | Any(c) :: fresh(c) ==> c in w.everClients
      invariant forall h: LogHandler | Any(h) :: fresh(h) ==> h in w.everHandlers
    {
      assert plans[..i + 1][..i] == plans[..i];
      var _ := w.Reload(plans[i]);
    }
    assert plans[..|plans|] == plans;
  }

  /**
   A whole process: startup, any number of reloads, and the close on the way out. Nothing that it ever opened
   towards an output is open afterwards, and no alias is set.
   */
  method RunProcess(reg: Registry, build: seq<BuildStep>, utils: UtilsGlobals, dnsMap: DnsMap, opts: Options,
      domainMap: nat, watch: WatchParameters, logFile: Option<string>, logOpens: bool, plans: seq<ReloadPlan>)
    returns (started: bool)
    requires reg.alias == map[]
    modifies reg, dnsMap, utils, utils.pslOverrides
    ensures started <==> forall step :: step in build ==> !StepFails(step, reg.installed)
    ensures reg.alias == map[]
    ensures forall c: Client | Any(c) :: fresh(c) && c.hasClose ==> !c.open
  {
    hide AllSucceed, Watcher.Valid, Connections, OutputsOf, Described, StepFails;
    var w;
    ghost var created;
    w, created := Start(reg, build, utils, dnsMap, opts, domainMap, watch, logFile, logOpens);
    if w.None? {
      return false;
    }
    RunReloads(w.value, plans);
    w.value.Shutdown();
    return true;
  }
}
