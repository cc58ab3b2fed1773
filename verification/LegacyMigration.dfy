/**
 The crash-safe migration of a legacy index (first loop of `migrate_indexes` in parsedmarc/elastic.py): copy
 an index whose `published_policy.fo` is mapped as `long` to a `-v2` index mapped as text, then delete it.
 */
module LegacyMigration {
  import opened Wrappers
  import IndexNames

  /** How an index maps the field `published_policy.fo`. */
  datatype FoType = Unmapped | Long | Text

  /** Documents are keyed by id. */
  datatype Index = Index(fo: FoType, docs: map<string, string>)

  type Indexes = map<string, Index>

  /** The requests one attempt sends, in order. */
  datatype Request =
    | CheckOriginal | ReadMapping | CheckTarget | DiscardTarget | CreateTarget | PutMapping | Reindex | DeleteOriginal

  /**
   What goes wrong in an attempt: the request that fails, whether the cluster carried it out all the same, the ids a
   failed reindex had copied by then, and whether the process dies with it or catches an exception.
   */
  datatype Fault = Fault(at: Request, applied: bool, copied: set<string>, dies: bool)

  datatype Ending = Completed | Caught | Died

  function Target(name: string): string {
    name + "-v2"
  }

  lemma TargetInjective(a: string, b: string)
    ensures Target(a) == Target(b) ==> a == b
    ensures Target(a) != a
  {
    assert Target(a)[..|Target(a)| - 3] == a && Target(b)[..|Target(b)| - 3] == b;
  }

  predicate NeedsMigration(indexes: Indexes, name: string) {
    name in indexes && indexes[name].fo == Long
  }

  function Restricted(docs: map<string, string>, ids: set<string>): map<string, string> {
    map id | id in docs && id in ids :: docs[id]
  }

  /* ---------- Specification ---------- */

  /** The cluster once the first `changes` of the five changes are in, with `copied` reindexed so far. */
  function AfterChanges(indexes: Indexes, name: string, changes: nat, copied: set<string>): Indexes
    requires name in indexes && changes <= 5
  {
    var t, docs := Target(name), indexes[name].docs;
    match changes
    case 0 => indexes
    case 1 => indexes - {t}
    case 2 => indexes[t := Index(Unmapped, map[])]
    case 3 => indexes[t := Index(Text, Restricted(docs, copied))]
    case 4 => indexes[t := Index(Text, docs)]
    case 5 => indexes[t := Index(Text, docs)] - {name}
  }

  /** Whether the attempt gets as far as the failing request at all. */
  predicate Occurs(indexes: Indexes, name: string, fault: Fault) {
    match fault.at
    case CheckOriginal => true
    case ReadMapping => name in indexes
    case DiscardTarget => NeedsMigration(indexes, name) && Target(name) in indexes
    case _ => NeedsMigration(indexes, name)
  }

  function ChangesBefore(request: Request): (n: nat)
    ensures n <= 4
  {
    match request
    case CreateTarget => 1
    case PutMapping => 2
    case Reindex => 3
    case DeleteOriginal => 4
    case _ => 0
  }

  /** Whether a request changes the cluster, so that one that fails may have done so. */
  predicate Changes(request: Request) {
    request.DiscardTarget? || request.CreateTarget? || request.PutMapping? || request.DeleteOriginal?
  }

  function Attempt(indexes: Indexes, name: string, fault: Option<Fault>): Indexes {
    if fault.Some? && Occurs(indexes, name, fault.value) then
      var f := fault.value;
      if !NeedsMigration(indexes, name) then indexes
      else if f.at.Reindex? then AfterChanges(indexes, name, 3, f.copied)
      else AfterChanges(indexes, name, ChangesBefore(f.at) + if f.applied && Changes(f.at) then 1 else 0, {})
    else if NeedsMigration(indexes, name) then AfterChanges(indexes, name, 5, {})
    else indexes
  }

  function EndingOf(indexes: Indexes, name: string, fault: Option<Fault>): Ending {
    if fault.Some? && Occurs(indexes, name, fault.value) then (if fault.value.dies then Died else Caught) else Completed
  }

  /** One call: the names in order, until the process dies. */
  function Call(indexes: Indexes, names: seq<string>, faults: seq<Option<Fault>>): Indexes
    requires |faults| == |names|
    decreases |names|
  {
    if names == [] then indexes
    else
      var next := Attempt(indexes, names[0], faults[0]);
      if EndingOf(indexes, names[0], faults[0]).Died? then next else Call(next, names[1..], faults[1..])
  }

  /** Whether the process dies during a call. */
  predicate CallDies(indexes: Indexes, names: seq<string>, faults: seq<Option<Fault>>)
    requires |faults| == |names|
    decreases |names|
  {
    names != [] && (EndingOf(indexes, names[0], faults[0]).Died?
                    || CallDies(Attempt(indexes, names[0], faults[0]), names[1..], faults[1..]))
  }

  /** A run: one call per process start, whatever happened in the earlier ones. */
  function Run(indexes: Indexes, names: seq<string>, calls: seq<seq<Option<Fault>>>): Indexes
    requires forall faults :: faults in calls ==> |faults| == |names|
    decreases |calls|
  {
    if calls == [] then indexes else Run(Call(indexes, names, calls[0]), names, calls[1..])
  }

  /** From discarding the target on, an attempt goes as if there had been none. */
  lemma DiscardComesFirst(indexes: Indexes, name: string, fault: Option<Fault>)
    requires NeedsMigration(indexes, name) && Target(name) in indexes
    requires fault.Some? ==> ChangesBefore(fault.value.at) > 0
    ensures var cleared := indexes - {Target(name)};
      && NeedsMigration(cleared, name)
      && Attempt(cleared, name, fault) == Attempt(indexes, name, fault)
      && EndingOf(cleared, name, fault) == EndingOf(indexes, name, fault)
  {
    TargetInjective(name, name);
    var t := Target(name);
    forall changes: nat, copied | 1 <= changes <= 5
      ensures AfterChanges(indexes - {t}, name, changes, copied) == AfterChanges(indexes, name, changes, copied)
    {
    }
    assert indexes - {t} - {t} == indexes - {t};
  }

  /* ---------- The loop ---------- */

  class Cluster {
    var indexes: Indexes

    constructor (indexes: Indexes)
      ensures this.indexes == indexes
    {
      this.indexes := indexes;
    }

    method MigrateOne(name: string, fault: Option<Fault>) returns (ending: Ending)
      modifies this
      ensures indexes == Attempt(old(indexes), name, fault)
      ensures ending == EndingOf(old(indexes), name, fault)
      ensures name !in old(indexes) || old(indexes)[name].fo != Long ==> indexes == old(indexes)
      ensures fault == None ==> ending == Completed
      ensures fault == None && name in old(indexes) && old(indexes)[name].fo == Long ==>
        indexes == old(indexes)[name + "-v2" := Index(Text, old(indexes)[name].docs)] - {name}
    {
      var failure := if fault.Some? && fault.value.dies then Died else Caught;
      if fault.Some? && fault.value.at.CheckOriginal? { return failure; }
      if name !in indexes { return Completed; }
      if fault.Some? && fault.value.at.ReadMapping? { return failure; }
      if indexes[name].fo != Long { return Completed; }
      ending := ReplaceIndex(name, fault);
    }

    method ReplaceIndex(name: string, fault: Option<Fault>) returns (ending: Ending)
      requires NeedsMigration(indexes, name)
      requires fault.Some? ==> !fault.value.at.CheckOriginal? && !fault.value.at.ReadMapping?
      modifies this
      ensures indexes == Attempt(old(indexes), name, fault)
      ensures ending == EndingOf(old(indexes), name, fault)
    {
      TargetInjective(name, name);
      var target := name + "-v2";
      var failure := if fault.Some? && fault.value.dies then Died else Caught;
      if fault.Some? && fault.value.at.CheckTarget? { return failure; }
      if target in indexes {
        if fault.Some? && fault.value.at.DiscardTarget? {
          if fault.value.applied { indexes := indexes - {target}; }
          return failure;
        }
        DiscardComesFirst(indexes, name, fault);
        indexes := indexes - {target};
      }
      ending := FillTarget(name, fault);
    }

    method FillTarget(name: string, fault: Option<Fault>) returns (ending: Ending)
      requires NeedsMigration(indexes, name) && Target(name) !in indexes
      requires fault.Some? ==> fault.value.at.DiscardTarget? || ChangesBefore(fault.value.at) > 0
      modifies this
      ensures indexes == Attempt(old(indexes), name, fault)
      ensures ending == EndingOf(old(indexes), name, fault)
    {
      TargetInjective(name, name);
      var target := name + "-v2";
      var failure := if fault.Some? && fault.value.dies then Died else Caught;
      ghost var before := indexes;
      assert before - {target} == before;
      if fault.Some? && fault.value.at.CreateTarget? {
        if fault.value.applied { indexes := indexes[target := Index(Unmapped, map[])]; }
        return failure;
      }
      indexes := indexes[target := Index(Unmapped, map[])];
      if fault.Some? && fault.value.at.PutMapping? {
        if fault.value.applied { indexes := indexes[target := indexes[target].(fo := Text)]; }
        assert Restricted(indexes[name].docs, {}) == map[];
        return failure;
      }
      indexes := indexes[target := indexes[target].(fo := Text)];
      assert indexes == before[target := Index(Text, map[])];
      if fault.Some? && fault.value.at.Reindex? {
        indexes := indexes[target := indexes[target].(docs := Restricted(indexes[name].docs, fault.value.copied))];
        return failure;
      }
      indexes := indexes[target := indexes[target].(docs := indexes[name].docs)];
      assert indexes == before[target := Index(Text, before[name].docs)];
      if fault.Some? && fault.value.at.DeleteOriginal? {
        if fault.value.applied { indexes := indexes - {name}; }
        return failure;
      }
      indexes := indexes - {name};
      return Completed;
    }

    method MigrateIndexes(names: seq<string>, faults: seq<Option<Fault>>) returns (died: bool)
      requires |faults| == |names|
      modifies this
      ensures indexes == Call(old(indexes), names, faults)
      ensures died == CallDies(old(indexes), names, faults)
    {
      died := false;
      for i := 0 to |names|
        invariant !died
        invariant Call(indexes, names[i..], faults[i..]) == Call(old(indexes), names, faults)
        invariant CallDies(indexes, names[i..], faults[i..]) == CallDies(old(indexes), names, faults)
      {
        assert names[i..][1..] == names[i + 1..] && faults[i..][1..] == faults[i + 1..];
        var ending := MigrateOne(names[i], faults[i]);
        if ending.Died? {
          return true;
        }
      }
    }
  }

  /* ---------- Nothing is lost ---------- */

  predicate InIndex(indexes: Indexes, name: string, id: string, doc: string) {
    name in indexes && id in indexes[name].docs && indexes[name].docs[id] == doc
  }

  /** The document is in the original index or in its target. */
  ghost predicate Holds(indexes: Indexes, name: string, id: string, doc: string) {
    InIndex(indexes, name, id, doc) || InIndex(indexes, Target(name), id, doc)
  }

  /** An index waiting for migration already has every document of its target: the target is at most debris. */
  ghost predicate TargetIsDebris(indexes: Indexes, name: string) {
    NeedsMigration(indexes, name) && Target(name) in indexes ==>
      forall id :: id in indexes[Target(name)].docs ==>
        id in indexes[name].docs && indexes[name].docs[id] == indexes[Target(name)].docs[id]
  }

  ghost predicate SameDocuments(before: Indexes, after: Indexes, name: string) {
    forall id, doc :: Holds(after, name, id, doc) <==> Holds(before, name, id, doc)
  }

  /** Until it is deleted the original is as it was, and once it is gone the target is its complete copy. */
  lemma OriginalUntilCopied(indexes: Indexes, name: string, fault: Option<Fault>)
    requires name in indexes
    ensures var after := Attempt(indexes, name, fault);
      if name in after then after[name] == indexes[name]
      else Target(name) in after && after[Target(name)] == Index(Text, indexes[name].docs)
  {
    TargetInjective(name, name);
  }

  /** An attempt touches the index it is about and that index's target, nothing else. */
  lemma OthersUntouched(indexes: Indexes, name: string, fault: Option<Fault>, other: string)
    requires other != name && other != Target(name)
    ensures var after := Attempt(indexes, name, fault);
      (other in after <==> other in indexes) && (other in indexes ==> after[other] == indexes[other])
  {
  }

  /** However an attempt ends, the documents of the pair stay the same and a target stays debris. */
  lemma AttemptKeepsDocuments(indexes: Indexes, name: string, fault: Option<Fault>)
    requires TargetIsDebris(indexes, name)
    ensures SameDocuments(indexes, Attempt(indexes, name, fault), name)
    ensures TargetIsDebris(Attempt(indexes, name, fault), name)
  {
    TargetInjective(name, name);
  }

  /**
   A target that is not debris loses documents: an attempt that gets past discarding it keeps them all exactly when
   the original already held every one.
   */
  lemma CompletedKeepsExactlyDebris(indexes: Indexes, name: string)
    ensures SameDocuments(indexes, Attempt(indexes, name, None), name) <==> TargetIsDebris(indexes, name)
  {
    TargetInjective(name, name);
    if TargetIsDebris(indexes, name) {
      AttemptKeepsDocuments(indexes, name, None);
    } else {
      var t := Target(name);
      var id :| id in indexes[t].docs && !(id in indexes[name].docs && indexes[name].docs[id] == indexes[t].docs[id]);
      assert Holds(indexes, name, id, indexes[t].docs[id]);
      assert !Holds(Attempt(indexes, name, None), name, id, indexes[t].docs[id]);
    }
  }

  /** And documents can be lost: a target that is not debris, at a long-mapped original without documents. */
  lemma DocumentsCanBeLost(name: string)
    ensures var before := map[name := Index(Long, map[]), Target(name) := Index(Text, map["id" := "doc"])];
      && !TargetIsDebris(before, name)
      && Holds(before, name, "id", "doc") && !Holds(Attempt(before, name, None), name, "id", "doc")
  {
    TargetInjective(name, name);
    var before := map[name := Index(Long, map[]), Target(name) := Index(Text, map["id" := "doc"])];
    assert "id" in before[Target(name)].docs && "id" !in before[name].docs;
  }

  /* ---------- Whole runs ---------- */

  /** No name is another one's target. */
  ghost predicate Separate(names: seq<string>) {
    forall a, b :: a in names && b in names ==> b != Target(a)
  }

  ghost predicate AllDebris(indexes: Indexes, names: seq<string>) {
    forall name :: name in names ==> TargetIsDebris(indexes, name)
  }

  ghost predicate AllSame(before: Indexes, after: Indexes, names: seq<string>) {
    forall name :: name in names ==> SameDocuments(before, after, name)
  }

  ghost predicate RestSame(before: Indexes, after: Indexes, names: seq<string>) {
    forall other :: other !in names && (forall name :: name in names ==> other != Target(name)) ==>
      (other in after <==> other in before) && (other in before ==> after[other] == before[other])
  }

  lemma AttemptKeepsAll(indexes: Indexes, names: seq<string>, name: string, fault: Option<Fault>)
    requires Separate(names) && name in names && AllDebris(indexes, names)
    ensures var after := Attempt(indexes, name, fault);
      AllDebris(after, names) && AllSame(indexes, after, names) && RestSame(indexes, after, names)
  {
    var after := Attempt(indexes, name, fault);
    forall n | n in names ensures TargetIsDebris(after, n) && SameDocuments(indexes, after, n) {
      if n == name {
        AttemptKeepsDocuments(indexes, name, fault);
      } else {
        TargetInjective(n, name);
        OthersUntouched(indexes, name, fault, n);
        OthersUntouched(indexes, name, fault, Target(n));
      }
    }
    forall other | other !in names && other != Target(name)
      ensures (other in after <==> other in indexes) && (other in indexes ==> after[other] == indexes[other])
    {
      OthersUntouched(indexes, name, fault, other);
    }
  }

  /** `todo` is what is left of `names` to visit. */
  lemma {:induction false} CallKeepsAll(indexes: Indexes, names: seq<string>, todo: seq<string>,
      faults: seq<Option<Fault>>)
    requires |faults| == |todo| && (forall n :: n in todo ==> n in names)
    requires Separate(names) && AllDebris(indexes, names)
    ensures var after := Call(indexes, todo, faults);
      AllDebris(after, names) && AllSame(indexes, after, names) && RestSame(indexes, after, names)
    decreases |todo|
  {
    if todo != [] {
      AttemptKeepsAll(indexes, names, todo[0], faults[0]);
      CallKeepsAll(Attempt(indexes, todo[0], faults[0]), names, todo[1..], faults[1..]);
    }
  }

  /**
   Over every run of calls that fail or die wherever they like, each document stays in its original or that
   original's target, nothing is added to a pair, and every other index stays as it was.
   */
  lemma {:induction false} EveryRunKeepsDocuments(indexes: Indexes, names: seq<string>, calls: seq<seq<Option<Fault>>>)
    requires forall faults :: faults in calls ==> |faults| == |names|
    requires Separate(names) && AllDebris(indexes, names)
    ensures var after := Run(indexes, names, calls);
      AllDebris(after, names) && AllSame(indexes, after, names) && RestSame(indexes, after, names)
    decreases |calls|
  {
    if calls != [] {
      CallKeepsAll(indexes, names, names, calls[0]);
      EveryRunKeepsDocuments(Call(indexes, names, calls[0]), names, calls[1..]);
    }
  }

  function NoFaults(n: nat): (faults: seq<Option<Fault>>)
    ensures |faults| == n && forall i :: 0 <= i < n ==> faults[i] == None
  {
    seq(n, _ => None)
  }

  /**
   What becomes of an index and its `-v2` index: one that is not mapped as `long` is left alone, and so is its target;
   one that is stays as it was until the target is its complete copy.
   */
  ghost predicate PairKept(before: Indexes, after: Indexes, name: string) {
    var t := name + "-v2";
    if name !in before || before[name].fo != Long then
      && (name in after <==> name in before) && (name in before ==> after[name] == before[name])
      && (t in after <==> t in before) && (t in before ==> after[t] == before[t])
    else if name in after then after[name] == before[name]
    else t in after && after[t] == Index(Text, before[name].docs)
  }

  /** The index has been replaced by its copy. */
  ghost predicate Migrated(before: Indexes, after: Indexes, name: string) {
    name in before && name !in after && name + "-v2" in after && after[name + "-v2"] == Index(Text, before[name].docs)
  }

  lemma AttemptKeepsPair(before: Indexes, indexes: Indexes, names: seq<string>, visited: string, fault: Option<Fault>,
      name: string)
    requires Separate(names) && visited in names && name in names && PairKept(before, indexes, name)
    ensures PairKept(before, Attempt(indexes, visited, fault), name)
    ensures Migrated(before, indexes, name) ==> Migrated(before, Attempt(indexes, visited, fault), name)
    ensures visited == name && fault == None && name in before && before[name].fo == Long ==>
      Migrated(before, Attempt(indexes, visited, fault), name)
  {
    TargetInjective(name, visited);
    if visited == name {
      if name in indexes {
        OriginalUntilCopied(indexes, name, fault);
      }
    } else {
      OthersUntouched(indexes, visited, fault, name);
      OthersUntouched(indexes, visited, fault, Target(name));
      hide Attempt;
    }
  }

  /** No fault kills the process. */
  ghost predicate NobodyDies(faults: seq<Option<Fault>>) {
    forall i :: 0 <= i < |faults| && faults[i].Some? ==> !faults[i].value.dies
  }

  /** Some visit of the name meets no fault. */
  ghost predicate Undisturbed(name: string, todo: seq<string>, faults: seq<Option<Fault>>)
    requires |todo| == |faults|
  {
    exists i :: 0 <= i < |todo| && todo[i] == name && faults[i] == None
  }

  /**
   A call migrates every index mapped as `long` that it visits without a fault, whatever goes wrong with the others
   short of death; the pairs it does not complete are kept.
   */
  lemma {:induction false} CallMigrates(before: Indexes, indexes: Indexes, names: seq<string>, todo: seq<string>,
      faults: seq<Option<Fault>>, name: string)
    requires |faults| == |todo| && Separate(names) && (forall n :: n in todo ==> n in names) && name in names
    requires PairKept(before, indexes, name)
    ensures PairKept(before, Call(indexes, todo, faults), name)
    ensures Migrated(before, indexes, name) ==> Migrated(before, Call(indexes, todo, faults), name)
    ensures NobodyDies(faults) && Undisturbed(name, todo, faults) && name in before && before[name].fo == Long ==>
      Migrated(before, Call(indexes, todo, faults), name)
    decreases |todo|
  {
    hide Attempt, PairKept, Migrated, Separate;
    if todo != [] {
      var next := Attempt(indexes, todo[0], faults[0]);
      AttemptKeepsPair(before, indexes, names, todo[0], faults[0], name);
      CallMigrates(before, next, names, todo[1..], faults[1..], name);
      if NobodyDies(faults) && Undisturbed(name, todo, faults) {
        var i :| 0 <= i < |todo| && todo[i] == name && faults[i] == None;
        if i > 0 {
          assert todo[1..][i - 1] == name && faults[1..][i - 1] == None;
        }
        assert NobodyDies(faults[1..]);
      }
    }
  }

  lemma {:induction false} RunKeepsPair(before: Indexes, indexes: Indexes, names: seq<string>,
      calls: seq<seq<Option<Fault>>>, name: string)
    requires forall faults :: faults in calls ==> |faults| == |names|
    requires Separate(names) && name in names && PairKept(before, indexes, name)
    ensures PairKept(before, Run(indexes, names, calls), name)
    decreases |calls|
  {
    hide PairKept, Migrated, Separate, Call;
    if calls != [] {
      CallMigrates(before, indexes, names, names, calls[0], name);
      RunKeepsPair(before, Call(indexes, names, calls[0]), names, calls[1..], name);
    }
  }

  /**
   An undisturbed call replaces exactly the indexes mapped as `long` by their complete copies; every other index and
   its `-v2` index stay as they were.
   */
  lemma CallCompletesAll(indexes: Indexes, names: seq<string>, name: string)
    requires Separate(names) && name in names
    ensures var after, t := Call(indexes, names, NoFaults(|names|)), name + "-v2";
      if name in indexes && indexes[name].fo == Long then
        name !in after && t in after && after[t] == Index(Text, indexes[name].docs)
      else
        && (name in after <==> name in indexes) && (name in indexes ==> after[name] == indexes[name])
        && (t in after <==> t in indexes) && (t in indexes ==> after[t] == indexes[t])
  {
    var faults := NoFaults(|names|);
    var i :| 0 <= i < |names| && names[i] == name;
    assert faults[i] == None;
    CallMigrates(indexes, indexes, names, names, faults, name);
    hide Call, Separate;
  }

  /** Whether the fault certainly strikes when its name's turn comes, and kills the process. */
  ghost predicate Kills(indexes: Indexes, name: string, fault: Option<Fault>) {
    && fault.Some? && fault.value.dies
    && (|| fault.value.at.CheckOriginal?
        || (name in indexes && (fault.value.at.ReadMapping?
            || (indexes[name].fo == Long && !fault.value.at.DiscardTarget?))))
  }

  /** A call ends where the process dies: indexes whose turn would have come later, and their targets, are untouched. */
  lemma {:induction false} DeathEndsTheCall(indexes: Indexes, todo: seq<string>, faults: seq<Option<Fault>>, i: nat,
      later: string)
    requires |faults| == |todo| && i < |todo| && Separate(todo) && Kills(indexes, todo[i], faults[i])
    requires forall a, b :: 0 <= a < b < |todo| ==> todo[a] != todo[b]
    requires later !in todo[..i + 1] && forall name :: name in todo[..i + 1] ==> later != name + "-v2"
    ensures CallDies(indexes, todo, faults)
    ensures var after := Call(indexes, todo, faults);
      (later in after <==> later in indexes) && (later in indexes ==> after[later] == indexes[later])
    decreases |todo|
  {
    var next := Attempt(indexes, todo[0], faults[0]);
    assert todo[0] in todo[..i + 1];
    OthersUntouched(indexes, todo[0], faults[0], later);
    if i > 0 {
      var rest := todo[1..];
      assert todo[i] in todo && forall name :: name in rest ==> name in todo;
      OthersUntouched(indexes, todo[0], faults[0], todo[i]);
      assert rest[i - 1] == todo[i] && faults[1..][i - 1] == faults[i];
      assert Separate(rest);
      forall name | name in rest[..i] ensures name in todo[..i + 1] {
        var k :| 0 <= k < i && rest[k] == name;
        assert todo[..i + 1][k + 1] == name;
      }
      hide Attempt, Separate;
      DeathEndsTheCall(next, rest, faults[1..], i - 1, later);
    }
  }

  /* ---------- The names parsedmarc passes ---------- */

  /** The names come from the migration-name rule for aggregate indexes, without the tenant map. */
  function LegacyNames(suffix: string, configured: string): seq<string> {
    IndexNames.TargetNames("dmarc_aggregate", suffix, configured, None)
  }

  /** They are the deployment's own aggregate names, with and without its suffix. */
  lemma LegacyNamesAre(suffix: string, configured: string)
    ensures LegacyNames(suffix, configured) ==
      if suffix == "" then [configured + "dmarc_aggregate"]
      else [configured + "dmarc_aggregate" + "_" + suffix, configured + "dmarc_aggregate"]
  {
    IndexNames.TargetsUnderOnePrefix("dmarc_aggregate", suffix, configured, None);
  }

  /** No configured suffix or prefix can make one of those names the target of another. */
  lemma LegacyNamesAreSeparate(suffix: string, configured: string)
    ensures Separate(LegacyNames(suffix, configured))
  {
    var base := "dmarc_aggregate";
    forall a, b | a in LegacyNames(suffix, configured) && b in LegacyNames(suffix, configured) ensures b != Target(a) {
      IndexNames.TargetsAreOwnNames(base, suffix, configured, None, a);
      IndexNames.TargetsAreOwnNames(base, suffix, configured, None, b);
      var n := |configured| + |base|;
      assert a[..n] == configured + base == b[..n];
      assert |a| == n || |a| == n + 1 + |suffix|;
      if |a| == n {
        assert Target(a)[n] == '-';
        assert |b| > n ==> b[n] == '_';
      }
    }
  }

  /**
   Whatever options a deployment sets and however often its starts are interrupted, an undisturbed start afterwards
   has replaced every index that was mapped as `long` by its complete copy and left the others and their `-v2` indexes
   alone. If no `-v2` index held anything of its own, every document is where it was or in the new index.
   */
  lemma DeploymentMigratesSafely(
    indexes: Indexes, suffix: string, configured: string, calls: seq<seq<Option<Fault>>>, name: string
  )
    requires var names := LegacyNames(suffix, configured);
      name in names && forall faults :: faults in calls ==> |faults| == |names|
    ensures var names := LegacyNames(suffix, configured);
      var after, t := Call(Run(indexes, names, calls), names, NoFaults(|names|)), name + "-v2";
      && (if name in indexes && indexes[name].fo == Long then
            name !in after && t in after && after[t] == Index(Text, indexes[name].docs)
          else
            && (name in after <==> name in indexes) && (name in indexes ==> after[name] == indexes[name])
            && (t in after <==> t in indexes) && (t in indexes ==> after[t] == indexes[t]))
      && (AllDebris(indexes, names) ==> SameDocuments(indexes, after, name) && RestSame(indexes, after, names))
  {
    var names := LegacyNames(suffix, configured);
    LegacyNamesAreSeparate(suffix, configured);
    hide LegacyNames, Separate, SameDocuments, RestSame, AllDebris, Call;
    var middle, faults := Run(indexes, names, calls), NoFaults(|names|);
    RunKeepsPair(indexes, indexes, names, calls, name);
    CallMigrates(indexes, middle, names, names, faults, name);
    var i :| 0 <= i < |names| && names[i] == name;
    assert faults[i] == None;
    if AllDebris(indexes, names) {
      EveryRunKeepsDocuments(indexes, names, calls);
      CallKeepsAll(middle, names, names, faults);
      DocumentsTwice(indexes, middle, Call(middle, names, faults), names, name);
    }
  }

  lemma DocumentsTwice(a: Indexes, b: Indexes, c: Indexes, names: seq<string>, name: string)
    requires name in names && AllSame(a, b, names) && AllSame(b, c, names) && RestSame(a, b, names)
    requires RestSame(b, c, names)
    ensures SameDocuments(a, c, name) && RestSame(a, c, names)
  {
    assert SameDocuments(a, b, name) && SameDocuments(b, c, name);
    hide Holds;
  }
}
