/** `handleStagingArea`: inspects a status snapshot and, when nothing is staged, stages
    everything or the files the user picks. The two prompt answers and the two status
    queries are inputs; a status query that throws or gives nothing is `None`. */
module Staging {
  import opened Wrappers
  import opened Git

  /** No change anywhere: nothing staged, nothing unstaged, no changed file. */
  predicate NothingChanged(s: Status)
  {
    |s.staged| == 0 && |s.notStaged| == 0 && |s.files| == 0
  }

  /** Nothing staged but something changed: the user is asked what to stage. */
  predicate NeedsStaging(s: Status)
  {
    |s.staged| == 0 && (|s.notStaged| > 0 || |s.files| > 0)
  }

  /** The choices of the file checkbox: the unstaged paths when there are any, otherwise
      the paths of the changed files. */
  function Candidates(s: Status): (choices: seq<Path>)
    ensures |s.notStaged| > 0 ==> choices == s.notStaged
    ensures |s.notStaged| == 0 ==> |choices| == |s.files| && forall k :: 0 <= k < |choices| ==> choices[k] == s.files[k].path
  {
    if |s.notStaged| > 0 then s.notStaged else FilePaths(s.files)
  }

  /** The staging step lets the workflow go on (given that the final status query works):
      a snapshot with changes where something is staged already, or the user staged all,
      or picked at least one file. */
  predicate StagingProceeds(snapshot: Option<Status>, stageAll: bool, selection: seq<Path>)
  {
    && snapshot.Some?
    && !NothingChanged(snapshot.value)
    && (|snapshot.value.staged| > 0 || stageAll || |selection| > 0)
  }

  /** What the staging step does to a repository, from its staging area, unstaged paths
      and add log before (`staged0`, `worktree0`, `adds0`) to those after: when the user
      is asked, stage-all adds everything unstaged and picking files adds exactly those;
      otherwise nothing changes. */
  predicate StagingEffect(snapshot: Option<Status>, stageAll: bool, selection: seq<Path>,
                          staged0: set<Path>, worktree0: set<Path>, adds0: seq<AddRequest>,
                          staged: set<Path>, worktree: set<Path>, adds: seq<AddRequest>)
  {
    var asked := snapshot.Some? && NeedsStaging(snapshot.value);
    && (asked && stageAll ==>
          adds == adds0 + [AddAll] && staged == staged0 + worktree0 && worktree == {})
    && (asked && !stageAll && |selection| > 0 ==>
          && adds == adds0 + [AddPaths(selection)]
          && staged == staged0 + (set p | p in selection)
          && worktree == worktree0 - (set p | p in selection))
    && (!(asked && (stageAll || |selection| > 0)) ==>
          adds == adds0 && staged == staged0 && worktree == worktree0)
  }

  /** `handleStagingArea`. `snapshot` is the first status query, `stageAll` the answer to
      "Stage all changes for commit?", `selection` the checkbox answer (a subset of the
      choices offered) and `refreshed` the status query made at the end. */
  method HandleStagingArea(repo: Repo, snapshot: Option<Status>, stageAll: bool,
                           selection: seq<Path>, refreshed: Option<Status>)
      returns (result: Option<Status>)
    requires snapshot.Some? ==> forall p :: p in selection ==> p in Candidates(snapshot.value)
    modifies repo
    // no status, or no change anywhere: cancelled, nothing staged
    ensures snapshot.None? || NothingChanged(snapshot.value) ==> result.None? && unchanged(repo)
    // something already staged: no prompt, no add, the fresh status
    ensures snapshot.Some? && |snapshot.value.staged| > 0 ==> result == refreshed && unchanged(repo)
    // nothing staged and "stage all" accepted: one add of the whole working tree
    ensures snapshot.Some? && NeedsStaging(snapshot.value) && stageAll ==>
              && result == refreshed
              && repo.adds == old(repo.adds) + [AddAll]
              && repo.staged == old(repo.staged) + old(repo.worktree)
              && repo.worktree == {}
    // "stage all" declined and no file picked: cancelled, nothing staged
    ensures snapshot.Some? && NeedsStaging(snapshot.value) && !stageAll && |selection| == 0 ==>
              result.None? && unchanged(repo)
    // "stage all" declined and files picked: one add of exactly those files
    ensures snapshot.Some? && NeedsStaging(snapshot.value) && !stageAll && |selection| > 0 ==>
              && result == refreshed
              && repo.adds == old(repo.adds) + [AddPaths(selection)]
              && repo.staged == old(repo.staged) + (set p | p in selection)
              && repo.worktree == old(repo.worktree) - (set p | p in selection)
    // only files offered in the checkbox are ever staged after "stage all" is declined
    ensures snapshot.Some? && NeedsStaging(snapshot.value) && !stageAll ==>
              forall p :: p in repo.staged && p !in old(repo.staged) ==> p in Candidates(snapshot.value)
    // against a snapshot that describes the repository, the staging area ends up holding
    // every listed change, or exactly the picked files
    ensures snapshot.Some? && old(repo.Mirrors(snapshot.value)) && NeedsStaging(snapshot.value) && stageAll ==>
              repo.staged == ListedPaths(snapshot.value)
    ensures snapshot.Some? && old(repo.Mirrors(snapshot.value)) && NeedsStaging(snapshot.value) && !stageAll ==>
              repo.staged == set p | p in selection
    // the three cases above, as one statement about the repository's state
    ensures StagingEffect(snapshot, stageAll, selection,
                          old(repo.staged), old(repo.worktree), old(repo.adds),
                          repo.staged, repo.worktree, repo.adds)
    ensures result.Some? <==> StagingProceeds(snapshot, stageAll, selection) && refreshed.Some?
    ensures result.Some? ==> result == refreshed
    ensures repo.commitCalls == old(repo.commitCalls)
  {
    if snapshot.None? {
      return None;
    }
    var status := snapshot.value;
    var staged, notStaged, files := status.staged, status.notStaged, status.files;
    if |staged| == 0 && |notStaged| == 0 && |files| == 0 {
      return None;
    }
    if |staged| == 0 && (|notStaged| > 0 || |files| > 0) {
      if stageAll {
        repo.Add(AddAll);
      } else {
        if |selection| > 0 {
          repo.Add(AddPaths(selection));
        } else {
          return None;
        }
      }
    }
    return refreshed;
  }
}
