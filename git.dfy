/** The version-control backend as the wizard sees it: status snapshots, `add` and
    `commit`. Only the staging area and the calls made on it are modelled; how the real
    backend computes a status is not. */
module Git {

  type Path = string

  /** One entry of a status snapshot's file list: a path and its working-tree marker. */
  datatype FileEntry = FileEntry(path: Path, workingDir: char)

  /** A status snapshot: the staged paths, the paths changed but not staged, and the list
      of all changed files. */
  datatype Status = Status(staged: seq<Path>, notStaged: seq<Path>, files: seq<FileEntry>)

  /** `files.map(f => f.path)`. */
  function FilePaths(files: seq<FileEntry>): (paths: seq<Path>)
    ensures |paths| == |files|
    ensures forall k :: 0 <= k < |files| ==> paths[k] == files[k].path
  {
    seq(|files|, k requires 0 <= k < |files| => files[k].path)
  }

  /** Every path a snapshot lists as changed but not staged, or as a changed file. */
  function ListedPaths(s: Status): (paths: set<Path>)
    ensures forall p :: p in paths <==> p in s.notStaged || exists k :: 0 <= k < |s.files| && s.files[k].path == p
  {
    (set p | p in s.notStaged) + (set k | 0 <= k < |s.files| :: s.files[k].path)
  }

  /** An argument of `add`: the whole working tree (`'.'`) or a list of paths. */
  datatype AddRequest = AddAll | AddPaths(paths: seq<Path>)

  /** What `commit` answers: the new commit's hash, or the error it throws. */
  datatype CommitReply = Created(hash: string) | Failed(error: string)

  /** The paths an `add` request puts in the staging area, given the paths with
      unstaged changes. */
  function Picked(request: AddRequest, worktree: set<Path>): (paths: set<Path>)
    ensures request.AddAll? ==> paths == worktree
    ensures request.AddPaths? ==> forall p :: p in paths <==> p in request.paths
  {
    match request
    case AddAll => worktree
    case AddPaths(ps) => set p | p in ps
  }

  /** The repository: its staging area, the paths with changes not yet staged, and a log
      of every `add` and `commit` call made on it. */
  class Repo {
    var staged: set<Path>
    var worktree: set<Path>
    var adds: seq<AddRequest>
    var commitCalls: seq<string>

    constructor (staged: set<Path>, worktree: set<Path>)
      ensures this.staged == staged && this.worktree == worktree
      ensures adds == [] && commitCalls == []
    {
      this.staged := staged;
      this.worktree := worktree;
      adds := [];
      commitCalls := [];
    }

    /** The snapshot `s` describes this repository: it lists exactly the staged paths as
        staged, and every changed path, staged or not, among its changes. */
    predicate Mirrors(s: Status)
      reads this
    {
      (set p | p in s.staged) == staged && ListedPaths(s) == staged + worktree
    }

    /** `git.add(request)`: moves the picked paths into the staging area and records the
        call. */
    method Add(request: AddRequest)
      modifies this
      ensures adds == old(adds) + [request]
      ensures staged == old(staged) + Picked(request, old(worktree))
      ensures worktree == old(worktree) - Picked(request, old(worktree))
      ensures commitCalls == old(commitCalls)
    {
      var picked := Picked(request, worktree);
      staged := staged + picked;
      worktree := worktree - picked;
      adds := adds + [request];
    }

    /** `git.commit(message)`: records the call; the backend's answer is the `reply`
        input. */
    method Commit(message: string, reply: CommitReply) returns (result: CommitReply)
      modifies this
      ensures commitCalls == old(commitCalls) + [message]
      ensures result == reply
      ensures staged == old(staged) && worktree == old(worktree) && adds == old(adds)
    {
      commitCalls := commitCalls + [message];
      result := reply;
    }
  }
}
