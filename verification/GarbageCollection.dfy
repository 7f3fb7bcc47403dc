/**
Planning and executing the removal of unreferenced workspace files: `plan_garbage_collection`,
`execute_garbage_collection` and `apply_current_plan` (src/image23mf/workspace_health.py:363-490).
*/
module GarbageCollection {
  import opened Wrappers
  import opened WorkspaceRecords

  datatype Entry =
    | File(bytes: seq<nat>, mtime: nat)
    | Symlink(broken: bool)
    | Folder

  type Files = map<Path, Entry>

  datatype Reason = Orphan | CacheFile | StaleTemp

  /** A digest stands for the bytes it was taken of. */
  datatype Candidate = Candidate(path: Path, reason: Reason, size: nat, digest: seq<nat>, mtime: nat)

  datatype Fingerprint = Fingerprint(minimumAge: nat, candidates: seq<Candidate>)

  datatype Plan = Plan(
    minimumAge: nat, fingerprint: Fingerprint, count: nat, reclaimable: nat, candidates: seq<Candidate>)

  datatype IssueCode = BecameReferenced | MissingOrUnsafe | NotARegularFile | Changed

  datatype Issue = Issue(code: IssueCode, path: Path)

  datatype Execution =
    | Executed(eligible: nat, deleted: nat, reclaimed: nat, skipped: seq<Issue>)
    | InvalidPlan
    | StalePlan
    | InvalidAge
    | UnlinkFailed(at: Path)

  const MAXIMUM_AGE: nat := 365 * 24 * 60 * 60
  const SECOND: nat := 1_000_000_000

  // ----- what may be collected

  predicate OldEnough(entry: Entry, now: nat, minimumAge: nat) {
    entry.File? && now - entry.mtime >= minimumAge * SECOND
  }

  /** A regular managed file of sufficient age; among stored blobs only one that no record references. */
  predicate Collectable(files: Files, references: set<Path>, now: nat, minimumAge: nat, path: Path) {
    && path in files && OldEnough(files[path], now, minimumAge)
    && match path.namespace
       case Artifacts => path !in references
       case Assets => path !in references
       case Cache => true
       case Temp => true
       case Unmanaged => false
  }

  /** A candidate states the size, contents and time of the file at its path. */
  predicate Describes(candidate: Candidate, files: Files) {
    && candidate.path in files && files[candidate.path].File?
    && candidate.size == |files[candidate.path].bytes|
    && candidate.digest == files[candidate.path].bytes
    && candidate.mtime == files[candidate.path].mtime
  }

  /** What an execution may delete: unreferenced now, managed, and exactly as it was planned. */
  predicate Eligible(files: Files, references: set<Path>, candidate: Candidate) {
    candidate.path !in references && candidate.path.namespace != Unmanaged && Describes(candidate, files)
  }

  function SumOfSizes(candidates: seq<Candidate>): nat {
    if candidates == [] then 0
    else SumOfSizes(candidates[..|candidates| - 1]) + candidates[|candidates| - 1].size
  }

  function SizeOf(entry: Entry): nat {
    if entry.File? then |entry.bytes| else 0
  }

  /** The bytes all regular files take together. */
  ghost function TotalSize(files: Files): nat
    decreases |files|
  {
    if files == map[] then 0
    else
      var path :| path in files;
      assert (files - {path}).Keys == files.Keys - {path};
      SizeOf(files[path]) + TotalSize(files - {path})
  }

  lemma {:induction false} TotalSizeWithout(files: Files, path: Path)
    requires path in files
    ensures TotalSize(files) == SizeOf(files[path]) + TotalSize(files - {path})
    decreases |files|
  {
    var first :| first in files && TotalSize(files) == SizeOf(files[first]) + TotalSize(files - {first});
    if first != path {
      assert (files - {first}).Keys == files.Keys - {first};
      assert (files - {path}).Keys == files.Keys - {path};
      TotalSizeWithout(files - {first}, path);
      TotalSizeWithout(files - {path}, first);
      assert (files - {first}) - {path} == (files - {path}) - {first};
    }
  }

  /** How many entries there are, counted one by one. */
  ghost function EntryCount(files: Files): nat
    decreases |files|
  {
    if files == map[] then 0
    else
      var path :| path in files;
      assert (files - {path}).Keys == files.Keys - {path};
      1 + EntryCount(files - {path})
  }

  lemma {:induction false} EntryCountIsTheNumberOfPaths(files: Files)
    ensures EntryCount(files) == |files|
    decreases |files|
  {
    if files != map[] {
      var first :| first in files && EntryCount(files) == 1 + EntryCount(files - {first});
      assert (files - {first}).Keys == files.Keys - {first};
      EntryCountIsTheNumberOfPaths(files - {first});
    }
  }

  lemma EntryCountWithout(files: Files, path: Path)
    requires path in files
    ensures EntryCount(files) == 1 + EntryCount(files - {path})
  {
    EntryCountIsTheNumberOfPaths(files);
    EntryCountIsTheNumberOfPaths(files - {path});
    assert (files - {path}).Keys == files.Keys - {path};
  }

  // ----- the order of a plan

  function Rank(namespace: Namespace): nat {
    match namespace
    case Artifacts => 0
    case Assets => 1
    case Cache => 2
    case Temp => 3
    case Unmanaged => 4
  }

  predicate Before(a: Path, b: Path) {
    Rank(a.namespace) < Rank(b.namespace) || (a.namespace == b.namespace && a.name < b.name)
  }

  ghost predicate Ascending(candidates: seq<Candidate>) {
    forall i, j :: 0 <= i < j < |candidates| ==> Before(candidates[i].path, candidates[j].path)
  }

  function ReasonFor(namespace: Namespace): Reason {
    match namespace
    case Cache => CacheFile
    case Temp => StaleTemp
    case _ => Orphan
  }

  /** The candidates a plan lists: exactly the collectable files, each once, in path order, as they are. */
  ghost predicate Lists(candidates: seq<Candidate>, files: Files, references: set<Path>, now: nat, minimumAge: nat,
                        among: set<Path>) {
    && Ascending(candidates)
    && (forall c :: c in candidates ==>
          && Collectable(files, references, now, minimumAge, c.path)
          && Describes(c, files)
          && c.reason == ReasonFor(c.path.namespace))
    && (forall path ::
          path in among && Collectable(files, references, now, minimumAge, path) ==> Listed(candidates, path))
  }

  ghost predicate Listed(candidates: seq<Candidate>, path: Path) {
    exists c :: c in candidates && c.path == path
  }

  lemma ListedStays(candidates: seq<Candidate>, candidate: Candidate)
    ensures forall path :: Listed(candidates, path) ==> Listed(candidates + [candidate], path)
    ensures Listed(candidates + [candidate], candidate.path)
  {
    forall path | Listed(candidates, path) ensures Listed(candidates + [candidate], path) {
      var c :| c in candidates && c.path == path;
      assert c in candidates + [candidate];
    }
    assert candidate in candidates + [candidate];
  }

  ghost predicate IsPlan(plan: Plan, files: Files, references: set<Path>, now: nat, minimumAge: nat) {
    && plan.minimumAge == minimumAge
    && plan.fingerprint == Fingerprint(minimumAge, plan.candidates)
    && plan.count == |plan.candidates| && plan.reclaimable == SumOfSizes(plan.candidates)
    && Lists(plan.candidates, files, references, now, minimumAge, files.Keys)
  }

  method First(paths: set<Path>) returns (first: Path)
    requires paths != {}
    ensures first in paths && forall other :: other in paths && other != first ==> Before(first, other)
  {
    first :| first in paths;
    var remaining := paths - {first};
    while remaining != {}
      invariant remaining <= paths && first in paths && first !in remaining
      invariant forall other :: other in paths && other !in remaining && other != first ==> Before(first, other)
      decreases remaining
    {
      var path :| path in remaining;
      if Before(path, first) { first := path; }
      remaining := remaining - {path};
    }
  }

  // ----- what an execution does

  ghost function EligiblePaths(files: Files, references: set<Path>, candidates: seq<Candidate>): set<Path> {
    if candidates == [] then {}
    else
      var last := candidates[|candidates| - 1];
      EligiblePaths(files, references, candidates[..|candidates| - 1])
      + if Eligible(files, references, last) then {last.path} else {}
  }

  lemma {:induction false} EligiblePathsExactly(files: Files, references: set<Path>, candidates: seq<Candidate>,
                                                path: Path)
    ensures path in EligiblePaths(files, references, candidates)
       <==> exists c :: c in candidates && c.path == path && Eligible(files, references, c)
  {
    if candidates != [] {
      var front, last := candidates[..|candidates| - 1], candidates[|candidates| - 1];
      EligiblePathsExactly(files, references, front, path);
      assert candidates == front + [last];
    }
  }

  ghost function CountEligible(files: Files, references: set<Path>, candidates: seq<Candidate>): nat {
    if candidates == [] then 0
    else CountEligible(files, references, candidates[..|candidates| - 1])
         + if Eligible(files, references, candidates[|candidates| - 1]) then 1 else 0
  }

  /** Why a candidate is left alone; a path that was deleted for an earlier candidate is missing for a later one. */
  ghost predicate Justified(code: IssueCode, candidate: Candidate, before: Files, after: Files,
                            references: set<Path>) {
    var path := candidate.path;
    match code
    case BecameReferenced => path in references
    case MissingOrUnsafe =>
      path !in references && (path.namespace == Unmanaged || path !in after || after[path] == Symlink(true))
    case NotARegularFile =>
      path !in references && path in before && !before[path].File? && before[path] != Symlink(true)
    case Changed =>
      path !in references && path in before && before[path].File? && !Describes(candidate, before)
  }

  /** Every candidate that is not deleted has its issue, and every issue is about such a candidate. */
  ghost predicate Accounts(skipped: seq<Issue>, candidates: seq<Candidate>, before: Files, after: Files,
                           references: set<Path>) {
    && (forall issue {:trigger Explained(issue, candidates, before, after, references)} ::
          issue in skipped ==> Explained(issue, candidates, before, after, references))
    && (forall c {:trigger Reported(skipped, c.path)} ::
          c in candidates && !Eligible(before, references, c) ==> Reported(skipped, c.path))
  }

  ghost predicate Explained(issue: Issue, candidates: seq<Candidate>, before: Files, after: Files,
                            references: set<Path>) {
    exists c :: c in candidates && c.path == issue.path && Justified(issue.code, c, before, after, references)
  }

  ghost predicate Reported(skipped: seq<Issue>, path: Path) {
    exists issue :: issue in skipped && issue.path == path
  }

  lemma {:induction false} EligiblePathsOfPrefix(files: Files, references: set<Path>, candidates: seq<Candidate>,
                                                 k: nat)
    requires k <= |candidates|
    ensures EligiblePaths(files, references, candidates[..k]) <= EligiblePaths(files, references, candidates)
    decreases |candidates| - k
  {
    if k < |candidates| {
      assert candidates[..k + 1][..k] == candidates[..k];
      EligiblePathsOfPrefix(files, references, candidates, k + 1);
    } else {
      assert candidates[..k] == candidates;
    }
  }

  /** Judging a candidate after the earlier ones are gone is judging it before, except that a path is deleted once. */
  lemma OneMoreCandidate(before: Files, references: set<Path>, candidates: seq<Candidate>, k: nat, left: Files)
    requires k < |candidates|
    ensures CountEligible(before, references, candidates[..k + 1])
         == CountEligible(before, references, candidates[..k])
            + if Eligible(before, references, candidates[k]) then 1 else 0
    ensures EligiblePaths(before, references, candidates[..k]) <= EligiblePaths(before, references, candidates)
    ensures var c := candidates[k];
            var gone := EligiblePaths(before, references, candidates[..k]);
            var next := EligiblePaths(before, references, candidates[..k + 1]);
            left == before - gone ==>
              && next == gone + (if Eligible(left, references, c) then {c.path} else {})
              && (Eligible(left, references, c) ==>
                    c.path !in gone && c.path in EligiblePaths(before, references, candidates))
  {
    assert candidates[..k + 1][..k] == candidates[..k];
    EligiblePathsOfPrefix(before, references, candidates, k);
    EligiblePathsOfPrefix(before, references, candidates, k + 1);
  }

  lemma AccountsGrow(skipped: seq<Issue>, candidates: seq<Candidate>, k: nat, issue: Option<IssueCode>,
                     before: Files, left: Files, after: Files, references: set<Path>)
    requires k < |candidates| && Accounts(skipped, candidates[..k], before, left, references)
    requires after.Keys <= left.Keys <= before.Keys
    requires forall path :: path in left ==> left[path] == before[path]
    requires forall path :: path in after ==> after[path] == left[path]
    requires issue.None? <==> Eligible(left, references, candidates[k])
    requires issue.Some? ==> after == left && Justified(issue.value, candidates[k], left, left, references)
    requires issue.None? ==> candidates[k].path in left
    ensures Accounts(if issue.None? then skipped else skipped + [Issue(issue.value, candidates[k].path)],
                     candidates[..k + 1], before, after, references)
  {
    var c := candidates[k];
    var longer := candidates[..k + 1];
    var extended := if issue.None? then skipped else skipped + [Issue(issue.value, c.path)];
    assert longer == candidates[..k] + [c];
    forall entry | entry in extended ensures Explained(entry, longer, before, after, references) {
      if entry in skipped {
        assert Explained(entry, candidates[..k], before, left, references);
        var other :| other in candidates[..k] && other.path == entry.path
                     && Justified(entry.code, other, before, left, references);
        assert other in longer && Justified(entry.code, other, before, after, references);
      } else {
        assert c in longer && Justified(entry.code, c, before, after, references);
      }
    }
    forall other | other in longer && !Eligible(before, references, other) ensures Reported(extended, other.path) {
      if other in candidates[..k] {
        assert Reported(skipped, other.path);
        var entry :| entry in skipped && entry.path == other.path;
        assert entry in extended;
      } else {
        assert issue.Some?;
        assert Issue(issue.value, c.path) in extended;
      }
    }
  }

  datatype Tally = Tally(eligible: nat, deleted: nat, reclaimed: nat, skipped: seq<Issue>)

  /** The state of an execution after its first candidates: what is gone and what has been counted. */
  ghost predicate Swept(before: Files, after: Files, references: set<Path>, locked: set<Path>, done: seq<Candidate>,
                        apply: bool, tally: Tally) {
    && after == (if apply then before - EligiblePaths(before, references, done) else before)
    && (apply ==> EligiblePaths(before, references, done) !! locked)
    && tally.eligible + |tally.skipped| == |done|
    && EntryCount(after) + tally.deleted == EntryCount(before)
    && tally.eligible == (if apply then tally.deleted else CountEligible(before, references, done))
    && TotalSize(after) + tally.reclaimed == TotalSize(before)
    && Accounts(tally.skipped, done, before, after, references)
  }

  function Counted(tally: Tally, candidate: Candidate, issue: Option<IssueCode>, apply: bool): Tally {
    if issue.Some? then tally.(skipped := tally.skipped + [Issue(issue.value, candidate.path)])
    else if apply then Tally(tally.eligible + 1, tally.deleted + 1, tally.reclaimed + candidate.size, tally.skipped)
    else tally.(eligible := tally.eligible + 1)
  }

  lemma SweptGrows(before: Files, left: Files, after: Files, references: set<Path>, locked: set<Path>,
                   candidates: seq<Candidate>, k: nat, apply: bool, tally: Tally, issue: Option<IssueCode>)
    requires k < |candidates| && Swept(before, left, references, locked, candidates[..k], apply, tally)
    requires issue.None? <==> Eligible(left, references, candidates[k])
    requires issue.Some? ==> Justified(issue.value, candidates[k], left, left, references)
    requires apply && issue.None? ==> candidates[k].path !in locked
    requires after == if apply && issue.None? then left - {candidates[k].path} else left
    requires apply && issue.None? ==>
               TotalSize(after) + candidates[k].size == TotalSize(left) && EntryCount(after) + 1 == EntryCount(left)
    ensures Swept(before, after, references, locked, candidates[..k + 1], apply,
                  Counted(tally, candidates[k], issue, apply))
  {
    OneMoreCandidate(before, references, candidates, k, left);
    AccountsGrow(tally.skipped, candidates, k, issue, before, left, after, references);
    var gone := EligiblePaths(before, references, candidates[..k]);
    if apply {
      assert left == before - gone;
      assert after == before - EligiblePaths(before, references, candidates[..k + 1]);
    }
  }

  /** What a collection deletes: a collectable file that the rows it asks for do not name. */
  predicate Unknown(files: Files, records: Records, now: nat, minimumAge: int, path: Path) {
    && 0 <= minimumAge
    && Collectable(files, QueriedPaths(records), now, minimumAge, path)
    && path !in QueriedPaths(records)
  }

  /** A row of a prompted edit names this file, no row of the queried tables does, and it is old enough. */
  predicate OnlyPromptedEditsName(files: Files, records: Records, now: nat, minimumAge: int, path: Path) {
    path in PromptedPaths(records) && Unknown(files, records, now, minimumAge, path)
  }

  /** The files a complete collection leaves. */
  ghost predicate LeavesExactly(files: Files, records: Records, now: nat, minimumAge: int, after: Files) {
    && after.Keys <= files.Keys
    && forall path :: path in files ==> (path !in after <==> Unknown(files, records, now, minimumAge, path))
  }

  /** A complete collection loses a file that a row names exactly when only rows of prompted edits name it. */
  lemma NamedFileIsLostExactly(files: Files, records: Records, now: nat, minimumAge: int, after: Files, path: Path)
    requires LeavesExactly(files, records, now, minimumAge, after) && path in files && path in NamedPaths(records)
    ensures path !in after <==> OnlyPromptedEditsName(files, records, now, minimumAge, path)
  {
  }

  /** So it keeps all of them exactly when there is no such file. */
  lemma NamedFilesSurviveExactly(files: Files, records: Records, now: nat, minimumAge: int, after: Files)
    requires LeavesExactly(files, records, now, minimumAge, after)
    ensures (forall path :: path in files && path in NamedPaths(records) ==> path in after)
       <==> !(exists path :: OnlyPromptedEditsName(files, records, now, minimumAge, path))
  {
    forall path | path in files && path in NamedPaths(records)
      ensures path !in after <==> OnlyPromptedEditsName(files, records, now, minimumAge, path)
    {
      NamedFileIsLostExactly(files, records, now, minimumAge, after, path);
    }
    assert forall path :: OnlyPromptedEditsName(files, records, now, minimumAge, path) ==>
             path in files && path in NamedPaths(records);
  }

  class Workspace {
    var files: Files
    /** The rows of the database that name stored files. */
    var records: Records
    /** Files that cannot be unlinked. */
    const locked: set<Path>

    constructor (files: Files, records: Records, locked: set<Path>)
      ensures this.files == files && this.records == records && this.locked == locked
    {
      this.files, this.records, this.locked := files, records, locked;
    }

    method PlanCollection(now: nat, minimumAge: int) returns (plan: Option<Plan>)
      requires AssetPathsUnique(records)
      ensures plan.None? <==> !(0 <= minimumAge <= 31_536_000)
      ensures plan.Some? ==> IsPlan(plan.value, files, QueriedPaths(records), now, minimumAge)
    {
      if !(0 <= minimumAge <= MAXIMUM_AGE) {
        return None;
      }
      var referenced := ReferencedBlobs(records);
      var candidates := ListCandidates(referenced.Keys, now, minimumAge);
      plan := Some(Plan(minimumAge, Fingerprint(minimumAge, candidates), |candidates|, SumOfSizes(candidates),
                        candidates));
    }

    method ListCandidates(references: set<Path>, now: nat, minimumAge: nat) returns (candidates: seq<Candidate>)
      ensures Lists(candidates, files, references, now, minimumAge, files.Keys)
    {
      candidates := [];
      var remaining := files.Keys;
      while remaining != {}
        invariant remaining <= files.Keys
        invariant forall c, path :: c in candidates && path in remaining ==> Before(c.path, path)
        invariant Lists(candidates, files, references, now, minimumAge, files.Keys - remaining)
        decreases remaining
      {
        var path := First(remaining);
        if Collectable(files, references, now, minimumAge, path) {
          var entry := files[path];
          var candidate := Candidate(path, ReasonFor(path.namespace), |entry.bytes|, entry.bytes, entry.mtime);
          ListedStays(candidates, candidate);
          candidates := candidates + [candidate];
        }
        remaining := remaining - {path};
      }
    }

    /** The issue that makes an execution skip a candidate. */
    method Judge(candidate: Candidate, references: set<Path>) returns (issue: Option<IssueCode>)
      ensures issue.None? <==> Eligible(files, references, candidate)
      ensures issue.Some? ==> Justified(issue.value, candidate, files, files, references)
    {
      var path := candidate.path;
      if path in references { return Some(BecameReferenced); }
      if path.namespace == Unmanaged || path !in files || files[path] == Symlink(true) {
        return Some(MissingOrUnsafe);
      }
      if !files[path].File? { return Some(NotARegularFile); }
      var bytes := files[path].bytes;
      if files[path].mtime != candidate.mtime || |bytes| != candidate.size || bytes != candidate.digest {
        return Some(Changed);
      }
      issue := None;
    }

    /** One candidate: judged, and unlinked unless this is a dry run or the file is locked. */
    method Collect(candidate: Candidate, references: set<Path>, apply: bool) returns (issue: Option<IssueCode>)
      modifies this`files
      ensures issue.None? <==> Eligible(old(files), references, candidate)
      ensures issue.Some? ==> Justified(issue.value, candidate, old(files), old(files), references)
      ensures files == if apply && issue.None? && candidate.path !in locked
                       then old(files) - {candidate.path} else old(files)
      ensures apply && issue.None? && candidate.path !in locked ==>
                && TotalSize(files) + candidate.size == TotalSize(old(files))
                && EntryCount(files) + 1 == EntryCount(old(files))
    {
      issue := Judge(candidate, references);
      if apply && issue.None? && candidate.path !in locked {
        TotalSizeWithout(files, candidate.path);
        EntryCountWithout(files, candidate.path);
        files := files - {candidate.path};
      }
    }

    method Execute(plan: Plan, apply: bool) returns (execution: Execution)
      requires AssetPathsUnique(records)
      modifies this`files
      ensures execution.InvalidPlan? <==> plan.fingerprint != Fingerprint(plan.minimumAge, plan.candidates)
      ensures execution.UnlinkFailed? <==>
                && !execution.InvalidPlan?
                && apply
                && EligiblePaths(old(files), QueriedPaths(records), plan.candidates) * locked != {}
      ensures execution.InvalidPlan? || execution.UnlinkFailed? || execution.Executed?
      // Only files that no queried row names and that are exactly as planned are deleted, whatever happens.
      ensures files.Keys <= old(files).Keys && forall path :: path in files ==> files[path] == old(files)[path]
      ensures old(files).Keys - files.Keys
              <= EligiblePaths(old(files), QueriedPaths(records), plan.candidates) - locked
      ensures execution.InvalidPlan? || !apply ==> files == old(files)
      ensures execution.UnlinkFailed? ==> execution.at in locked && execution.at in files
      // A completed execution deletes them all and accounts for every candidate and byte.
      ensures execution.Executed? && apply ==>
                files == old(files) - EligiblePaths(old(files), QueriedPaths(records), plan.candidates)
      ensures execution.Executed? ==> execution.eligible + |execution.skipped| == |plan.candidates|
      ensures execution.Executed? ==>
                && EntryCount(files) + execution.deleted == EntryCount(old(files))
                && (apply ==> execution.eligible == execution.deleted)
      ensures execution.Executed? && !apply ==>
                execution.eligible == CountEligible(files, QueriedPaths(records), plan.candidates)
      ensures execution.Executed? ==> TotalSize(files) + execution.reclaimed == TotalSize(old(files))
      ensures execution.Executed? ==>
                Accounts(execution.skipped, plan.candidates, old(files), files, QueriedPaths(records))
    {
      if plan.fingerprint != Fingerprint(plan.minimumAge, plan.candidates) {
        return InvalidPlan;
      }
      var referenced := ReferencedBlobs(records);
      var references := referenced.Keys;
      var tally := Tally(0, 0, 0, []);
      ghost var before := files;
      for k := 0 to |plan.candidates|
        invariant Swept(before, files, references, locked, plan.candidates[..k], apply, tally)
      {
        var candidate := plan.candidates[k];
        ghost var left := files;
        var issue := Collect(candidate, references, apply);
        if apply && issue.None? && candidate.path in locked {
          OneMoreCandidate(before, references, plan.candidates, k, left);
          return UnlinkFailed(candidate.path);
        }
        SweptGrows(before, left, files, references, locked, plan.candidates, k, apply, tally, issue);
        tally := Counted(tally, candidate, issue, apply);
      }
      assert plan.candidates[..|plan.candidates|] == plan.candidates;
      execution := Executed(tally.eligible, tally.deleted, tally.reclaimed, tally.skipped);
    }

    method ApplyCurrentPlan(fingerprint: Fingerprint, minimumAge: int, now: nat) returns (execution: Execution)
      requires AssetPathsUnique(records)
      modifies this`files
      ensures execution.InvalidAge? <==> !(0 <= minimumAge <= 31_536_000)
      ensures !execution.InvalidPlan?
      // Stale exactly when the reviewed fingerprint is not that of the workspace as it is now.
      ensures execution.StalePlan? <==>
                && !execution.InvalidAge?
                && !(fingerprint.minimumAge == minimumAge
                     && Lists(fingerprint.candidates, old(files), QueriedPaths(records), now, minimumAge,
                              old(files).Keys))
      ensures execution.InvalidAge? || execution.StalePlan? ==> files == old(files)
      ensures execution.UnlinkFailed? <==>
                && !execution.InvalidAge?
                && !execution.StalePlan?
                && exists path :: path in locked && Unknown(old(files), records, now, minimumAge, path)
      // What goes was reviewed; on completion it is every collectable file that no queried row names.
      ensures forall path :: path in files ==> path in old(files) && files[path] == old(files)[path]
      ensures forall path :: path in old(files) && path !in files ==> Listed(fingerprint.candidates, path)
      ensures execution.Executed? ==> LeavesExactly(old(files), records, now, minimumAge, files)
      // It keeps every file that a row names exactly when no old file is named by prompted edits alone.
      ensures execution.Executed? ==>
                ((forall path :: path in old(files) && path in NamedPaths(records) ==> path in files)
                 <==> !exists path :: OnlyPromptedEditsName(old(files), records, now, minimumAge, path))
      ensures execution.Executed? ==> TotalSize(files) + execution.reclaimed == TotalSize(old(files))
    {
      var plan := PlanCollection(now, minimumAge);
      if plan.None? {
        return InvalidAge;
      }
      var current := plan.value;
      if current.fingerprint != fingerprint {
        if fingerprint.minimumAge == minimumAge
           && Lists(fingerprint.candidates, files, QueriedPaths(records), now, minimumAge, files.Keys) {
          ListingIsDetermined(current.candidates, fingerprint.candidates, files, QueriedPaths(records), now,
                              minimumAge);
          assert false;
        }
        return StalePlan;
      }
      PlannedPaths(current.candidates, files, QueriedPaths(records), now, minimumAge);
      ghost var before := files;
      execution := Execute(current, true);
      forall path | path in before && path !in files ensures Listed(fingerprint.candidates, path) {
        assert path in before.Keys - files.Keys;
      }
      if execution.Executed? {
        NamedFilesSurviveExactly(before, records, now, minimumAge, files);
      }
    }
  }

  // ----- what plans and executions amount to together

  /** A fresh plan's deletable paths: every collectable file no record references. */
  lemma PlannedPaths(candidates: seq<Candidate>, files: Files, references: set<Path>, now: nat, minimumAge: nat)
    requires Lists(candidates, files, references, now, minimumAge, files.Keys)
    ensures forall path :: path in EligiblePaths(files, references, candidates) <==>
              Collectable(files, references, now, minimumAge, path) && path !in references
    ensures forall path :: path in EligiblePaths(files, references, candidates) ==> Listed(candidates, path)
  {
    forall path
      ensures path in EligiblePaths(files, references, candidates) <==>
              Collectable(files, references, now, minimumAge, path) && path !in references
      ensures path in EligiblePaths(files, references, candidates) ==> Listed(candidates, path)
    {
      EligiblePathsExactly(files, references, candidates, path);
      if Collectable(files, references, now, minimumAge, path) && path !in references {
        assert Listed(candidates, path);
        var c :| c in candidates && c.path == path;
        assert Eligible(files, references, c);
      }
    }
  }

  /** One workspace has one plan: the fingerprint changes exactly when a collectable file does. */
  lemma ListingIsDetermined(a: seq<Candidate>, b: seq<Candidate>, files: Files, references: set<Path>, now: nat,
                            minimumAge: nat)
    requires Lists(a, files, references, now, minimumAge, files.Keys)
    requires Lists(b, files, references, now, minimumAge, files.Keys)
    ensures a == b
  {
    forall c | c in a ensures c in b { SameListing(a, b, c, files, references, now, minimumAge); }
    forall c | c in b ensures c in a { SameListing(b, a, c, files, references, now, minimumAge); }
    AscendingIsDetermined(a, b);
  }

  lemma SameListing(a: seq<Candidate>, b: seq<Candidate>, c: Candidate, files: Files, references: set<Path>, now: nat,
                    minimumAge: nat)
    requires Lists(a, files, references, now, minimumAge, files.Keys)
    requires Lists(b, files, references, now, minimumAge, files.Keys)
    requires c in a
    ensures c in b
  {
    assert Listed(b, c.path);
    var other :| other in b && other.path == c.path;
    assert other == c;
  }

  lemma {:induction false} AscendingIsDetermined(a: seq<Candidate>, b: seq<Candidate>)
    requires Ascending(a) && Ascending(b) && forall c :: c in a <==> c in b
    ensures a == b
  {
    assert a != [] ==> a[0] in b;
    assert b != [] ==> b[0] in a;
    if a != [] && b != [] {
      assert a[0] == b[0];
      forall c ensures c in a[1..] <==> c in b[1..] {
        if c in a[1..] { assert c in b && c != a[0]; }
        if c in b[1..] { assert c in a && c != b[0]; }
      }
      AscendingIsDetermined(a[1..], b[1..]);
    }
  }

  /** The path of a stored blob, or of a cache or temporary file. */
  ghost predicate Managed(path: Path) {
    path.namespace.Artifacts? || path.namespace.Assets? || path.namespace.Cache? || path.namespace.Temp?
  }

  /** A plan lists a regular file of that age in seconds, by its modification time in nanoseconds, unless referenced. */
  lemma PlanListsExactly(plan: Plan, files: Files, references: set<Path>, now: nat, minimumAge: nat, path: Path)
    requires IsPlan(plan, files, references, now, minimumAge)
    ensures Listed(plan.candidates, path) <==>
              && path in files && files[path].File? && now - files[path].mtime >= minimumAge * 1_000_000_000
              && Managed(path) && (path.namespace.Artifacts? || path.namespace.Assets? ==> path !in references)
  {
    assert Listed(plan.candidates, path) <==> Collectable(files, references, now, minimumAge, path);
  }

  /** It tells every file's size, contents, time and reason, in the order of the paths. */
  lemma PlanTellsExactly(plan: Plan, files: Files, references: set<Path>, now: nat, minimumAge: nat, i: nat)
    requires IsPlan(plan, files, references, now, minimumAge) && i < |plan.candidates|
    ensures var c := plan.candidates[i];
            && c.path in files && files[c.path] == File(c.digest, c.mtime) && c.size == |c.digest|
            && c.reason == (if c.path.namespace.Cache? then CacheFile
                            else if c.path.namespace.Temp? then StaleTemp else Orphan)
            && forall j :: 0 <= j < i ==>
                 var earlier := plan.candidates[j].path;
                 if earlier.namespace == c.path.namespace then earlier.name < c.path.name
                 else if earlier.namespace.Artifacts? then true
                 else if earlier.namespace.Assets? then !c.path.namespace.Artifacts?
                 else earlier.namespace.Cache? && c.path.namespace.Temp?
  {
    var c := plan.candidates[i];
    assert c in plan.candidates && Describes(c, files) && Collectable(files, references, now, minimumAge, c.path);
    forall j | 0 <= j < i ensures Before(plan.candidates[j].path, c.path) {
      assert plan.candidates[j] in plan.candidates;
    }
  }

  /** An execution may delete a file exactly when a candidate states it as it is and nothing references it now. */
  lemma DeletableExactly(files: Files, references: set<Path>, candidates: seq<Candidate>, path: Path)
    ensures path in EligiblePaths(files, references, candidates) <==>
              && Managed(path) && path !in references && path in files && files[path].File?
              && exists c :: c in candidates && c.path == path && c.digest == files[path].bytes
                             && c.size == |files[path].bytes| && c.mtime == files[path].mtime
  {
    EligiblePathsExactly(files, references, candidates, path);
    if c :| c in candidates && c.path == path && Eligible(files, references, c) {
      assert c.digest == files[path].bytes;
    }
  }

  /** What a complete collection leaves, told from the files and rows alone. */
  lemma CollectedExactly(files: Files, records: Records, now: nat, minimumAge: int, after: Files, path: Path)
    requires LeavesExactly(files, records, now, minimumAge, after) && minimumAge >= 0 && path in files
    ensures path !in after <==>
              && files[path].File? && now - files[path].mtime >= minimumAge * 1_000_000_000 && Managed(path)
              && !SomeRowNames(records.assets, path) && !SomeRowNames(records.artifacts, path)
              && !SomeRowNames(records.calibrationArtifactMembers, path)
              && !SomeRowNames(records.calibrationRunMembers, path)
              && !SomeRowNames(records.calibrationDraftMembers, path)
              && !SomeRowNames(records.calibrationRunBundles, path)
  {
    QueriedExactly(records, path);
  }

  function PathsOf(candidates: seq<Candidate>): set<Path> {
    set i | 0 <= i < |candidates| :: candidates[i].path
  }

  /** What a plan promises to reclaim is what its files take. */
  lemma {:induction false} PlanTellsItsBytes(files: Files, candidates: seq<Candidate>)
    requires Ascending(candidates) && forall c :: c in candidates ==> Describes(c, files)
    ensures SumOfSizes(candidates) + TotalSize(files - PathsOf(candidates)) == TotalSize(files)
  {
    if candidates == [] {
      assert files - PathsOf(candidates) == files;
    } else {
      var front, last := candidates[..|candidates| - 1], candidates[|candidates| - 1];
      PlanTellsItsBytes(files, front);
      assert PathsOf(candidates) == PathsOf(front) + {last.path};
      assert last in candidates;
      var left := files - PathsOf(front);
      assert forall c :: c in front ==> Before(c.path, last.path);
      TotalSizeWithout(left, last.path);
      assert left - {last.path} == files - PathsOf(candidates);
    }
  }

  // ----- what it costs

  /** An edit session whose selection mask was stored a day ago: the collection deletes the mask. */
  method CollectsASelectionMask(mask: Blob, bytes: seq<nat>, now: nat) returns (workspace: Workspace)
    requires mask.path.namespace.Artifacts? && now >= 86_400_000_000_000
    ensures mask.path in NamedPaths(workspace.records) && mask.path !in workspace.files
  {
    var records := Records([], [], [], [], [], [], [mask], []);
    workspace := new Workspace(map[mask.path := File(bytes, now - 86_400_000_000_000)], records, {});
    assert records.selectionMasks[0].path in PromptedPaths(records);
    assert Unknown(workspace.files, records, now, 86_400, mask.path);
    var plan := workspace.PlanCollection(now, 86_400);
    var execution := workspace.ApplyCurrentPlan(plan.value.fingerprint, 86_400, now);
  }

  /** What a complete collection leaves although it was collectable: a cache or temporary file that a row names. */
  predicate KeepsComingBack(files: Files, references: set<Path>, now: nat, minimumAge: nat, path: Path) {
    Collectable(files, references, now, minimumAge, path) && path in references
  }

  /** Planning again at the same time lists exactly those. */
  lemma ReplanningFindsNothingNew(plan: Plan, files: Files, references: set<Path>, now: nat, minimumAge: nat,
                                  again: Plan)
    requires IsPlan(plan, files, references, now, minimumAge)
    requires IsPlan(again, files - EligiblePaths(files, references, plan.candidates), references, now, minimumAge)
    ensures forall path :: Listed(again.candidates, path) <==> KeepsComingBack(files, references, now, minimumAge, path)
  {
    var after := files - EligiblePaths(files, references, plan.candidates);
    PlannedPaths(plan.candidates, files, references, now, minimumAge);
    forall path ensures Listed(again.candidates, path) <==> KeepsComingBack(files, references, now, minimumAge, path) {
      assert Listed(again.candidates, path) <==> Collectable(after, references, now, minimumAge, path);
    }
  }

  /** And as all rows name stored blobs, that is nothing. */
  lemma ReplanningFindsNothing(plan: Plan, files: Files, records: Records, now: nat, minimumAge: nat, again: Plan)
    requires BlobsAreStored(records) && IsPlan(plan, files, QueriedPaths(records), now, minimumAge)
    requires IsPlan(again, files - EligiblePaths(files, QueriedPaths(records), plan.candidates), QueriedPaths(records),
                    now, minimumAge)
    ensures again.candidates == []
  {
    var references := QueriedPaths(records);
    ReplanningFindsNothingNew(plan, files, references, now, minimumAge, again);
    assert forall path :: path in references ==> path in NamedPaths(records);
    assert forall path :: !Listed(again.candidates, path);
    assert forall c :: c in again.candidates ==> Listed(again.candidates, c.path);
  }

  /** A dry run of a plan counts exactly the files that applying it would delete. */
  lemma {:induction false} DryRunPredictsDeletion(files: Files, references: set<Path>, candidates: seq<Candidate>)
    requires Ascending(candidates)
    ensures CountEligible(files, references, candidates) == |EligiblePaths(files, references, candidates)|
  {
    if candidates != [] {
      var front, last := candidates[..|candidates| - 1], candidates[|candidates| - 1];
      DryRunPredictsDeletion(files, references, front);
      EligiblePathsExactly(files, references, front, last.path);
      assert forall c :: c in front ==> Before(c.path, last.path);
    }
  }
}
