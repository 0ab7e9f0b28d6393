/**
 The bare repository and the two writers of internal/git/write.go.

 A commit's id is taken to be its content (an ideal hash), so `Sha` is the commit
 record itself: equal ids mean equal trees and equal histories, and a parent chain
 cannot be circular. Trees map paths to blobs. Git's plumbing commands appear as
 specified steps; which of them fail on a given call is the `faults` argument.
 */
module GitStore {
  import opened Wrappers
  import opened Text
  import opened RepoPath

  type Blob = string
  type Tree = map<string, Blob>

  datatype Identity = Identity(name: string, email: string)

  datatype Commit = Commit(tree: Tree, parent: Option<Commit>, message: string, author: Identity, stamp: nat)
  type Sha = Commit

  /** `refs` is keyed by full ref names; `head` is the ref that HEAD points at; `ids` says which
      object 40 hexadecimal digits spell (the ideal hash, read backwards); `other` is what rev-parse
      prints for text that is neither that nor a ref's name: revision expressions, abbreviated ids,
      options, names of files. */
  datatype Repo = Repo(refs: map<string, Sha>, head: string, ids: string -> Sha, other: string -> Option<Sha>)

  // ---- Refs ----

  function BranchRef(branch: string): string {
    "refs/heads/" + branch
  }

  lemma BranchRefInjective(a: string, b: string)
    ensures BranchRef(a) == BranchRef(b) <==> a == b
  {
    assert BranchRef(a)[11..] == a && BranchRef(b)[11..] == b;
  }

  predicate BranchExists(r: Repo, branch: string) {
    BranchRef(branch) in r.refs
  }

  /** The full names `git rev-parse` tries for a short name, in its order. */
  function Candidates(r: Repo, name: string): seq<string> {
    [if name == "HEAD" then r.head else name, "refs/" + name, "refs/tags/" + name, "refs/heads/" + name,
     "refs/remotes/" + name, "refs/remotes/" + name + "/HEAD"]
  }

  /** A lone "@" is short for HEAD. */
  function Spelt(name: string): string {
    if name == "@" then "HEAD" else name
  }

  predicate IsOption(name: string) {
    name != "" && name[0] == '-'
  }

  predicate IsHex(c: char) {
    '0' <= c <= '9' || 'a' <= c <= 'f' || 'A' <= c <= 'F'
  }

  /** A whole object id, which git takes at its word before it looks at any ref. */
  predicate IsFullId(name: string) {
    |name| == 40 && forall c <- name :: IsHex(c)
  }

  function FirstIn(refs: map<string, Sha>, names: seq<string>): Option<Sha> {
    if names == [] then None
    else if names[0] in refs then Some(refs[names[0]])
    else FirstIn(refs, names[1..])
  }

  /** RevParse (internal/git/diff.go:40-46) of any text; None is its error. */
  function RevParse(r: Repo, name: string): Option<Sha> {
    if IsFullId(name) then Some(r.ids(name))
    else if IsOption(name) then r.other(name)
    else
      var ref := FirstIn(r.refs, Candidates(r, Spelt(name)));
      if ref.Some? then ref else r.other(name)
  }

  predicate IsEmpty(r: Repo) {
    r.head !in r.refs
  }

  predicate RefChar(c: char) {
    'A' <= c <= 'Z' || 'a' <= c <= 'z' || '0' <= c <= '9' || c == '.' || c == '_' || c == '/' || c == '-'
  }

  predicate ValidRefName(name: string) {
    && 1 <= |name| <= 200
    && (forall c <- name :: RefChar(c))
    && name[0] !in "._/-"
    && !Contains(name, "..") && !HasSuffix(name, "/") && !HasSuffix(name, ".lock")
  }

  predicate IsLetterOrDigit(c: char) {
    'A' <= c <= 'Z' || 'a' <= c <= 'z' || '0' <= c <= '9'
  }

  /** Any short name of letters and digits passes, object ids and HEAD among them. */
  lemma LettersAreValid(name: string)
    requires 1 <= |name| <= 200 && forall c <- name :: IsLetterOrDigit(c)
    ensures ValidRefName(name)
  {
    assert name[0] in name;
    forall i | 0 <= i <= |name| ensures !(".." <= name[i..]) {
      if i < |name| {
        assert name[i] in name && name[i..][0] == name[i];
      }
    }
    forall k: nat | k < |name| ensures name[k..][0] != '.' && name[k..][0] != '/' {
      assert name[k] in name && name[k..][0] == name[k];
    }
  }

  /** What no name may start with, end in or contain, whatever is around it. */
  lemma InvalidNames(a: string, b: string, c: char)
    ensures !ValidRefName("") && !ValidRefName(a + "/") && !ValidRefName(a + ".lock") && !ValidRefName(a + ".." + b)
    ensures c in "._/-" ==> !ValidRefName([c] + a)
    ensures !('A' <= c <= 'Z' || 'a' <= c <= 'z' || '0' <= c <= '9' || c in "._/-") ==> !ValidRefName(a + [c] + b)
    ensures |a| > 200 ==> !ValidRefName(a)
  {
    assert (a + "/")[|a|..] == "/" && (a + ".lock")[|a|..] == ".lock";
    assert (a + ".." + b)[|a|..][..2] == "..";
    assert ([c] + a)[0] == c;
    assert (a + [c] + b)[|a|] == c && c in a + [c] + b;
  }

  // ---- Edits to the index ----

  /** What some command does to an index, None being its error. Git keeps an index consistent. */
  type IndexStep = f: Tree -> Option<Tree> | forall t: Tree :: Consistent(t) && f(t).Some? ==> Consistent(f(t).value)
    witness (t: Tree) => Some(t)

  /** `option` is what `update-index --force-remove <path>` does when git takes the path for an
      option: nothing, an error, or whatever that option means. */
  datatype FileChange = FileChange(path: string, content: Blob, delete: bool, option: IndexStep)

  /** `git apply --cached` is a partial function of the index it is given. */
  datatype Edit =
    | Files(changes: seq<FileChange>)
    | Patch(text: string, apply: Tree -> Option<Tree>)

  predicate Below(dir: string, p: string) {
    dir + "/" <= p
  }

  /** No path is both a file and a directory. */
  ghost predicate Consistent(t: Tree) {
    forall p <- t.Keys, q <- t.Keys :: !Below(p, q)
  }

  /** The index refuses an entry that would make some path both file and directory. */
  predicate Clashes(t: Tree, path: string) {
    exists q <- t.Keys :: Below(q, path) || Below(path, q)
  }

  /** The command line has no "--" before the path; a lone "-" is not an option. */
  predicate ReadsAsOption(path: string) {
    |path| >= 2 && path[0] == '-'
  }

  predicate SameButCase(s: string, lower: string) {
    |s| == |lower| && forall i | 0 <= i < |s| :: s[i] == lower[i] || (s[i] < 'a' && s[i] as int + 32 == lower[i] as int)
  }

  /** Dots and blanks, up to the end or a separator. */
  predicate OnlyTrails(s: string) {
    s == "" || s[0] in "/\\:" || (s[0] in ". " && OnlyTrails(s[1..]))
  }

  predicate StartsDotGit(s: string) {
    || (|s| >= 4 && SameButCase(s[..4], ".git") && OnlyTrails(s[4..]))
    || (|s| >= 5 && SameButCase(s[..5], "git~1") && OnlyTrails(s[5..]))
  }

  /** Some component would be git's own directory, on a file system that folds case, drops trailing
      dots and blanks and has short names; the index takes no such path. */
  predicate Protected(path: string) {
    exists i | 0 <= i < |path| :: (i == 0 || path[i - 1] in "/\\") && StartsDotGit(path[i..])
  }

  /** One turn of the loop: `update-index --force-remove`, which ignores a protected path, or hash
      the blob and `update-index --add --cacheinfo`, which refuses one. */
  function ApplyChange(t: Tree, c: FileChange): Option<Tree> {
    if c.delete then
      if ReadsAsOption(c.path) then c.option(t)
      else if Protected(c.path) then Some(t)
      else Some(t - {c.path})
    else if Protected(c.path) || Clashes(t, c.path) then None
    else Some(t[c.path := c.content])
  }

  function ApplyChanges(t: Tree, cs: seq<FileChange>): Option<Tree>
    decreases |cs|
  {
    if cs == [] then Some(t)
    else match ApplyChange(t, cs[0])
      case None => None
      case Some(t') => ApplyChanges(t', cs[1..])
  }

  function ApplyEdit(t: Tree, e: Edit): Option<Tree> {
    match e
    case Files(cs) => ApplyChanges(t, cs)
    case Patch(_, apply) => apply(t)
  }

  // ---- A write request, and what one undisturbed writer does with it ----

  datatype Base = Unset | Name(ref: string) | Id(sha: Sha)

  datatype Request = Request(branch: string, base: Base, edit: Edit, message: string, author: Identity, stamp: nat)

  datatype Fault =
    | OpenFails | RevParseFails | TempIndex | TempDir | ReadTree | HashObject(i: nat) | UpdateIndex(i: nat)
    | Apply | WriteTree | CommitTree | UpdateRef

  datatype Failure = InvalidBranch | NoChanges | InvalidPath | EmptyPatch | EmptyMessage | NotApplied | GitFailed

  function WithDefaults(a: Identity): Identity {
    Identity(if a.name == "" then "Orchis" else a.name,
             if a.email == "" then "noreply@orchis.local" else a.email)
  }

  /** The checks both writers make before touching git. */
  ghost predicate WellFormed(req: Request) {
    && ValidRefName(req.branch)
    && req.message != ""
    && match req.edit
       case Files(cs) => cs != [] && forall c <- cs :: Admitted(c.path)
       case Patch(text, _) => !IsBlank(text)
  }

  /** BranchExists answers false when the repository cannot be opened. */
  predicate Found(r: Repo, req: Request, faults: set<Fault>) {
    OpenFails !in faults && BranchExists(r, req.branch)
  }

  function ResolveBase(r: Repo, base: Base): Option<Sha> {
    match base
    case Unset => if IsEmpty(r) then None else RevParse(r, "HEAD")
    case Name(ref) => RevParse(r, ref)
    case Id(sha) => Some(sha)
  }

  /** Branch tip wins; else the base; else HEAD. A failing rev-parse leaves it empty. */
  function Parent(r: Repo, req: Request, found: bool, revParseFails: bool): Option<Sha> {
    if revParseFails then None
    else if found then RevParse(r, BranchRef(req.branch))
    else ResolveBase(r, req.base)
  }

  function ParentUnder(r: Repo, req: Request, faults: set<Fault>): Option<Sha> {
    Parent(r, req, Found(r, req, faults), RevParseFails in faults)
  }

  function TreeOf(parent: Option<Sha>): Tree {
    match parent case None => map[] case Some(c) => c.tree
  }

  /** The faults that matter to a request: read-tree runs only when there is a parent. */
  ghost predicate Faulty(req: Request, parent: Option<Sha>, faults: set<Fault>) {
    || TempIndex in faults || TempDir in faults || WriteTree in faults || CommitTree in faults || UpdateRef in faults
    || (parent.Some? && ReadTree in faults)
    || match req.edit
       case Patch(_, _) => Apply in faults
       case Files(cs) => ChangeFault(cs, 0, faults)
  }

  ghost predicate ChangeFault(cs: seq<FileChange>, from: nat, faults: set<Fault>) {
    exists i | from <= i < |cs| :: UpdateIndex(i) in faults || (HashObject(i) in faults && !cs[i].delete)
  }

  function NewCommit(req: Request, parent: Option<Sha>, tree: Tree): Sha {
    Commit(tree, parent, req.message, WithDefaults(req.author), req.stamp)
  }

  /** The commit an undisturbed write makes, or None when it reports an error. */
  ghost function Attempt(r: Repo, req: Request, faults: set<Fault>): Option<Sha> {
    var parent := ParentUnder(r, req, faults);
    if !WellFormed(req) || Faulty(req, parent, faults) then None
    else match ApplyEdit(TreeOf(parent), req.edit)
      case None => None
      case Some(tree) => Some(NewCommit(req, parent, tree))
  }

  ghost function AfterWrite(r: Repo, req: Request, faults: set<Fault>): Repo {
    match Attempt(r, req, faults)
    case None => r
    case Some(c) => r.(refs := r.refs[BranchRef(req.branch) := c])
  }

  // ---- The writers ----

  datatype Written = Written(newSha: Sha, oldSha: Option<Sha>)

  /** What a failed or successful write reports and leaves behind. */
  ghost predicate Wrote(before: map<int, Repo>, after: map<int, Repo>, repoID: int, req: Request,
                        faults: set<Fault>, res: Result<Written, Failure>)
  {
    && (res.Ok? <==> repoID in before && Attempt(before[repoID], req, faults).Some?)
    && (res.Err? ==> after == before)
    && (res.Ok? ==>
          && Attempt(before[repoID], req, faults) == Some(res.value.newSha)
          && after == before[repoID := AfterWrite(before[repoID], req, faults)]
          && res.value.oldSha == if Found(before[repoID], req, faults) then res.value.newSha.parent else None)
  }

  /** The loop over the changes: the index with all of them in it, or None when git fails at one. */
  method StageChanges(before: Tree, changes: seq<FileChange>, faults: set<Fault>) returns (res: Option<Tree>)
    ensures res == if ChangeFault(changes, 0, faults) then None else ApplyChanges(before, changes)
  {
    var index := before;
    for i := 0 to |changes|
      invariant ApplyChanges(index, changes[i..]) == ApplyChanges(before, changes)
      invariant ChangeFault(changes, i, faults) <==> ChangeFault(changes, 0, faults)
    {
      var c := changes[i];
      assert changes[i..][0] == c && changes[i..][1..] == changes[i + 1..];
      if c.delete {
        if UpdateIndex(i) in faults {
          return None;
        }
        if ReadsAsOption(c.path) {
          var result := c.option(index);
          if result.None? {
            return None;
          }
          index := result.value;
        } else if !Protected(c.path) {
          index := index - {c.path};
        }
      } else {
        if HashObject(i) in faults || UpdateIndex(i) in faults || Protected(c.path) || Clashes(index, c.path) {
          return None;
        }
        index := index[c.path := c.content];
      }
    }
    res := Some(index);
  }

  class Store {
    var repos: map<int, Repo>

    constructor ()
      ensures repos == map[]
    {
      repos := map[];
    }

    method CommitFiles(repoID: int, req: Request, faults: set<Fault>) returns (res: Result<Written, Failure>)
      requires req.edit.Files?
      modifies this
      ensures Wrote(old(repos), repos, repoID, req, faults, res)
      ensures res == Err(InvalidBranch) <==> !ValidRefName(req.branch)
      ensures res == Err(NoChanges) <==> ValidRefName(req.branch) && req.edit.changes == []
      ensures res == Err(InvalidPath) <==>
        ValidRefName(req.branch) && exists c <- req.edit.changes :: !Admitted(c.path)
      ensures res == Err(EmptyMessage) ==> req.message == ""
    {
      if !ValidRefName(req.branch) {
        return Err(InvalidBranch);
      }
      var changes := req.edit.changes;
      if |changes| == 0 {
        return Err(NoChanges);
      }
      for i := 0 to |changes|
        invariant repos == old(repos)
        invariant forall j | 0 <= j < i :: Admitted(changes[j].path)
      {
        var ok := ValidRepoPath(changes[i].path);
        if !ok {
          assert changes[i] in changes;
          return Err(InvalidPath);
        }
      }
      if req.message == "" {
        return Err(EmptyMessage);
      }
      assert WellFormed(req);
      if repoID !in repos {
        return Err(GitFailed);
      }
      var r := repos[repoID];
      var parent := ParentUnder(r, req, faults);
      var oldSha := if Found(r, req, faults) then parent else None;
      if Found(r, req, faults) {
        FirstCandidate(r, req.branch);
      }
      if TempIndex in faults || TempDir in faults {
        return Err(GitFailed);
      }
      if parent.Some? && ReadTree in faults {
        return Err(GitFailed);
      }
      var index := StageChanges(TreeOf(parent), changes, faults);
      if index.None? {
        return Err(GitFailed);
      }
      res := Publish(repoID, req, parent, oldSha, index.value, faults);
    }

    method ApplyPatchCommit(repoID: int, req: Request, faults: set<Fault>) returns (res: Result<Written, Failure>)
      requires req.edit.Patch?
      modifies this
      ensures Wrote(old(repos), repos, repoID, req, faults, res)
      ensures res == Err(InvalidBranch) <==> !ValidRefName(req.branch)
      ensures res == Err(EmptyPatch) <==> ValidRefName(req.branch) && IsBlank(req.edit.text)
      ensures res == Err(EmptyMessage) <==> ValidRefName(req.branch) && !IsBlank(req.edit.text) && req.message == ""
    {
      if !ValidRefName(req.branch) {
        return Err(InvalidBranch);
      }
      if IsBlank(req.edit.text) {
        return Err(EmptyPatch);
      }
      if req.message == "" {
        return Err(EmptyMessage);
      }
      if repoID !in repos {
        return Err(GitFailed);
      }
      var r := repos[repoID];
      var parent := ParentUnder(r, req, faults);
      var oldSha := if Found(r, req, faults) then parent else None;
      if Found(r, req, faults) {
        FirstCandidate(r, req.branch);
      }
      if TempIndex in faults || TempDir in faults {
        return Err(GitFailed);
      }
      if parent.Some? && ReadTree in faults {
        return Err(GitFailed);
      }
      var applied := req.edit.apply(TreeOf(parent));
      if Apply in faults || applied.None? {
        return Err(NotApplied);
      }
      res := Publish(repoID, req, parent, oldSha, applied.value, faults);
    }

    /** write-tree, commit-tree, then update-ref with the expected old value if there is one. */
    method Publish(repoID: int, req: Request, parent: Option<Sha>, oldSha: Option<Sha>, index: Tree, faults: set<Fault>)
      returns (res: Result<Written, Failure>)
      requires repoID in repos
      modifies this
      ensures res.Ok? <==>
              (!(WriteTree in faults || CommitTree in faults || UpdateRef in faults)
               && (oldSha.Some? ==> RefIs(old(repos)[repoID], BranchRef(req.branch), oldSha)))
      ensures res.Err? ==> repos == old(repos) && res.error == GitFailed
      ensures res.Ok? ==>
        && res.value == Written(NewCommit(req, parent, index), oldSha)
        && repos == old(repos)[repoID := MoveRef(old(repos)[repoID], BranchRef(req.branch), NewCommit(req, parent, index))]
    {
      if WriteTree in faults || CommitTree in faults {
        return Err(GitFailed);
      }
      var newSha := NewCommit(req, parent, index);
      var name := BranchRef(req.branch);
      if UpdateRef in faults || (oldSha.Some? && !RefIs(repos[repoID], name, oldSha)) {
        return Err(GitFailed);
      }
      repos := repos[repoID := MoveRef(repos[repoID], name, newSha)];
      return Ok(Written(newSha, oldSha));
    }
  }

  function MoveRef(r: Repo, name: string, sha: Sha): Repo {
    r.(refs := r.refs[name := sha])
  }

  predicate RefIs(r: Repo, name: string, sha: Option<Sha>) {
    sha == if name in r.refs then Some(r.refs[name]) else None
  }

  // ---- What the fold over the changes means ----

  ghost predicate Touches(cs: seq<FileChange>, p: string) {
    exists c <- cs :: c.path == p
  }

  /** What the last change that names `p` leaves there. */
  function LastChange(cs: seq<FileChange>, p: string): Option<Blob>
    requires Touches(cs, p)
  {
    assert cs == cs[..|cs| - 1] + [cs[|cs| - 1]];
    var c := cs[|cs| - 1];
    if c.path == p then (if c.delete then None else Some(c.content))
    else LastChange(cs[..|cs| - 1], p)
  }

  function Lookup(t: Tree, p: string): Option<Blob> {
    if p in t then Some(t[p]) else None
  }

  lemma {:induction false} ApplyChangesSnoc(t: Tree, cs: seq<FileChange>, c: FileChange)
    ensures ApplyChanges(t, cs + [c]) ==
      match ApplyChanges(t, cs) case None => None case Some(t') => ApplyChange(t', c)
    decreases |cs|
  {
    if cs == [] {
      assert [c][1..] == [];
      if ApplyChange(t, c).Some? {
        assert ApplyChanges(ApplyChange(t, c).value, []) == ApplyChange(t, c);
      }
    } else {
      assert (cs + [c])[1..] == cs[1..] + [c];
      if ApplyChange(t, cs[0]).Some? {
        ApplyChangesSnoc(ApplyChange(t, cs[0]).value, cs[1..], c);
      }
    }
  }

  /** No delete names a path that git would take for an option. */
  ghost predicate NoOptionDeletes(cs: seq<FileChange>) {
    forall c <- cs :: c.delete ==> !ReadsAsOption(c.path)
  }

  /** Last change per path wins; a path no change names keeps its blob or its absence. (Git takes
      no protected path into an index, so `t` holds none.) */
  lemma {:induction false} CommitLookup(t: Tree, cs: seq<FileChange>, p: string)
    requires ApplyChanges(t, cs).Some? && NoOptionDeletes(cs)
    requires p in t ==> !Protected(p)
    ensures Lookup(ApplyChanges(t, cs).value, p) == if Touches(cs, p) then LastChange(cs, p) else Lookup(t, p)
    ensures p in ApplyChanges(t, cs).value ==> !Protected(p)
  {
    hide Protected, ReadsAsOption, Clashes, ApplyChange, Lookup;
    if cs != [] {
      var init, c := cs[..|cs| - 1], cs[|cs| - 1];
      assert cs == init + [c];
      ApplyChangesSnoc(t, init, c);
      CommitLookup(t, init, p);
      assert c in cs;
      StepLookup(ApplyChanges(t, init).value, c, p);
    }
  }

  lemma StepLookup(t: Tree, c: FileChange, p: string)
    requires ApplyChange(t, c).Some? && (c.delete ==> !ReadsAsOption(c.path))
    requires p in t ==> !Protected(p)
    ensures
      var t' := ApplyChange(t, c).value;
      && Lookup(t', p) == (if c.path != p then Lookup(t, p) else if c.delete then None else Some(c.content))
      && (p in t' ==> !Protected(p))
  {
    hide Protected, ReadsAsOption, Clashes;
  }

  /** A delete does what it says, on every tree and whatever the options mean, exactly when its path
      does not read as an option. */
  lemma DeleteFaithfulIff(path: string)
    requires !Protected(path)
    ensures (forall t: Tree, step: IndexStep :: ApplyChange(t, FileChange(path, "", true, step)) == Some(t - {path}))
      <==> !ReadsAsOption(path)
  {
    if ReadsAsOption(path) {
      var t: Tree := map[path := ""];
      var step: IndexStep := (u: Tree) => Some(u);
      assert path in t && path !in t - {path};
      assert ApplyChange(t, FileChange(path, "", true, step)) == Some(t);
    }
  }

  /** "-q" asks git to be quiet: the commit is made, and the file is still there. */
  lemma QuietDeleteKeepsFile(blob: Blob)
    ensures
      var c := FileChange("-q", "", true, (t: Tree) => Some(t));
      var t: Tree := map["-q" := blob];
      Admitted("-q") && ApplyChanges(t, [c]) == Some(t) && Touches([c], "-q") && LastChange([c], "-q") == None
  {
    var c := FileChange("-q", "", true, (t: Tree) => Some(t));
    var t: Tree := map["-q" := blob];
    SplitAtom("-q", '/');
    assert [c][1..] == [] && [c][0] == c;
    assert ApplyChange(t, c) == Some(t);
    assert ApplyChanges(t, []) == Some(t);
  }

  /** A write never stores a tree in which a path is both file and directory. */
  lemma {:induction false} ChangesKeepConsistent(t: Tree, cs: seq<FileChange>)
    requires Consistent(t)
    ensures ApplyChanges(t, cs).Some? ==> Consistent(ApplyChanges(t, cs).value)
    decreases |cs|
  {
    if cs != [] && ApplyChange(t, cs[0]).Some? {
      StepKeepsConsistent(t, cs[0]);
      hide Consistent, ApplyChange;
      ChangesKeepConsistent(ApplyChange(t, cs[0]).value, cs[1..]);
    }
  }

  lemma StepKeepsConsistent(t: Tree, c: FileChange)
    requires Consistent(t)
    ensures ApplyChange(t, c).Some? ==> Consistent(ApplyChange(t, c).value)
  {
    hide Protected;
  }

  /** Git turns the change down: an option it does not take, or an entry it does not. */
  ghost predicate Rejects(t: Tree, c: FileChange) {
    if c.delete then ReadsAsOption(c.path) && c.option(t).None?
    else Protected(c.path) || !Consistent(t[c.path := c.content])
  }

  /** Adding to a consistent tree fails iff the path is protected or the entry would break it. */
  lemma RefusalIsExact(t: Tree, c: FileChange)
    requires Consistent(t)
    ensures ApplyChange(t, c).None? <==> Rejects(t, c)
  {
    hide Protected;
  }

  /** Git turns down the change at `k`, having taken the earlier ones. */
  ghost predicate RejectedAt(t: Tree, cs: seq<FileChange>, k: nat)
    requires k < |cs|
  {
    ApplyChanges(t, cs[..k]).Some? && Rejects(ApplyChanges(t, cs[..k]).value, cs[k])
  }

  /** A list of changes is refused exactly when one of them, applied after those before it, is an
      option git does not take, has a protected path, or would make some path both file and directory. */
  lemma {:induction false} RefusedIff(t: Tree, cs: seq<FileChange>)
    requires Consistent(t)
    ensures ApplyChanges(t, cs).None? <==> exists k: nat :: k < |cs| && RejectedAt(t, cs, k)
  {
    hide Consistent, ApplyChange, Rejects;
    if cs != [] {
      var n := |cs| - 1;
      var init, c := cs[..n], cs[n];
      assert cs == init + [c];
      ApplyChangesSnoc(t, init, c);
      RefusedIff(t, init);
      ChangesKeepConsistent(t, init);
      assert forall k: nat | k < n :: init[..k] == cs[..k];
      if ApplyChanges(t, init).Some? {
        RefusalIsExact(ApplyChanges(t, init).value, c);
        assert forall k: nat | k < n :: !RejectedAt(t, init, k);
        assert ApplyChanges(t, cs).None? ==> RejectedAt(t, cs, n);
        assert forall k: nat | k < n :: RejectedAt(t, cs, k) == RejectedAt(t, init, k);
      } else {
        var k: nat :| k < |init| && RejectedAt(t, init, k);
        assert RejectedAt(t, cs, k);
      }
    }
  }

  /** Such a path passes validRepoPath: what it admits is not all that git takes. */
  lemma AdmittedButRefused(t: Tree, blob: Blob, step: IndexStep)
    ensures Admitted(".git/x") && ApplyChange(t, FileChange(".git/x", blob, false, step)).None?
  {
    AdmittedIsJoin([".git", "x"]);
    assert Join([".git", "x"], '/') == ".git/x" by {
      assert [".git", "x"][1..] == ["x"];
    }
    assert ".git/x"[0..] == ".git/x" && ".git/x"[..4] == ".git" && ".git/x"[4..] == "/x";
    assert StartsDotGit(".git/x"[0..]);
  }

  lemma WriteMovesOneRef(r: Repo, req: Request, faults: set<Fault>, ref: string)
    ensures ref != BranchRef(req.branch) ==>
      RefIs(AfterWrite(r, req, faults), ref, if ref in r.refs then Some(r.refs[ref]) else None)
    ensures Attempt(r, req, faults).Some? && Found(r, req, faults) && RevParseFails !in faults ==>
      Attempt(r, req, faults).value.parent == Some(r.refs[BranchRef(req.branch)])
  {
    if Found(r, req, faults) {
      FirstCandidate(r, req.branch);
    }
  }

  /** A browser commit on an existing branch, end to end: its parent is the tip, at each path it has
      the last change that names the path and else the tip's blob, and no other ref moves. */
  lemma CommitOnTip(r: Repo, req: Request, faults: set<Fault>, p: string, ref: string)
    requires req.edit.Files? && Found(r, req, faults) && RevParseFails !in faults
    requires Attempt(r, req, faults).Some? && NoOptionDeletes(req.edit.changes)
    requires p in r.refs[BranchRef(req.branch)].tree ==> !Protected(p)
    ensures
      var tip, c := r.refs[BranchRef(req.branch)], Attempt(r, req, faults).value;
      && c.parent == Some(tip)
      && Lookup(c.tree, p) == (if Touches(req.edit.changes, p) then LastChange(req.edit.changes, p) else Lookup(tip.tree, p))
      && RefIs(AfterWrite(r, req, faults), ref,
               if ref == BranchRef(req.branch) then Some(c) else if ref in r.refs then Some(r.refs[ref]) else None)
  {
    WriteMovesOneRef(r, req, faults, ref);
    var tip := r.refs[BranchRef(req.branch)];
    assert ParentUnder(r, req, faults) == Some(tip);
    CommitLookup(tip.tree, req.edit.changes, p);
  }

  /** What a commit is built on: the tip of its branch; for a branch that is not there (or not seen)
      the base the caller named, and with no base what HEAD points at, if anything. */
  lemma CommitParent(r: Repo, req: Request, faults: set<Fault>)
    requires Attempt(r, req, faults).Some?
    ensures
      var parent := Attempt(r, req, faults).value.parent;
      && (RevParseFails in faults ==> parent == None)
      && (RevParseFails !in faults && OpenFails !in faults && BranchRef(req.branch) in r.refs ==>
            parent == Some(r.refs[BranchRef(req.branch)]))
      && (RevParseFails !in faults && (OpenFails in faults || BranchRef(req.branch) !in r.refs) ==>
            parent == match req.base
              case Name(ref) => RevParse(r, ref)
              case Id(sha) => Some(sha)
              case Unset => if r.head in r.refs then Some(r.refs[r.head]) else None)
  {
    if BranchExists(r, req.branch) {
      FirstCandidate(r, req.branch);
    }
    assert Candidates(r, "HEAD")[0] == r.head;
  }

  /** When git does not fail, a write goes through exactly when the branch has a valid name, there is a
      message and something to apply, every path is admitted, and the index takes it. */
  lemma WriteSucceedsIff(r: Repo, req: Request)
    ensures
      var parent := if BranchRef(req.branch) in r.refs then Some(r.refs[BranchRef(req.branch)]) else ResolveBase(r, req.base);
      var before: Tree := if parent.Some? then parent.value.tree else map[];
      Attempt(r, req, {}).Some? <==>
        && ValidRefName(req.branch) && req.message != ""
        && match req.edit
           case Files(cs) => cs != [] && (forall c <- cs :: Admitted(c.path)) && ApplyChanges(before, cs).Some?
           case Patch(text, apply) => !IsBlank(text) && apply(before).Some?
  {
    hide ApplyChanges, Admitted, ValidRefName, IsBlank;
    if BranchExists(r, req.branch) {
      FirstCandidate(r, req.branch);
    }
  }

  /** No write goes through that git fails at one of the steps every write takes. */
  lemma FaultsFail(r: Repo, req: Request, faults: set<Fault>, f: Fault)
    requires f in faults && f in {TempIndex, TempDir, WriteTree, CommitTree, UpdateRef}
    ensures Attempt(r, req, faults) == None && AfterWrite(r, req, faults) == r
  {}

  /** A commit's tree is the edit of its parent's, or of the empty tree; its message and instant are
      the request's, and so is its author, with a default for each part that is missing. */
  lemma CommitContents(r: Repo, req: Request, faults: set<Fault>, p: string)
    requires Attempt(r, req, faults).Some?
    ensures
      var c := Attempt(r, req, faults).value;
      var before: Tree := if c.parent.Some? then c.parent.value.tree else map[];
      && (req.edit.Patch? ==> req.edit.apply(before) == Some(c.tree))
      && (req.edit.Files? ==> ApplyChanges(before, req.edit.changes) == Some(c.tree))
      && (req.edit.Files? && NoOptionDeletes(req.edit.changes) && (p in before ==> !Protected(p)) ==>
            Lookup(c.tree, p) ==
              if Touches(req.edit.changes, p) then LastChange(req.edit.changes, p)
              else if p in before then Some(before[p]) else None)
      && c.message == req.message && c.stamp == req.stamp
      && c.author.name == (if req.author.name != "" then req.author.name else "Orchis")
      && c.author.email == (if req.author.email != "" then req.author.email else "noreply@orchis.local")
  {
    hide Protected, ReadsAsOption, ApplyChange, Faulty, Parent;
    var c := Attempt(r, req, faults).value;
    if req.edit.Files? && NoOptionDeletes(req.edit.changes) && (p in TreeOf(c.parent) ==> !Protected(p)) {
      CommitLookup(TreeOf(c.parent), req.edit.changes, p);
    }
  }

  /** The first commit of a branch, end to end: made from the base, it has at each path the last change
      that names the path and else the base's blob, and it makes the branch and moves no other ref. */
  lemma CommitOnNewBranch(r: Repo, req: Request, faults: set<Fault>, base: Option<Sha>, p: string, ref: string)
    requires req.edit.Files? && !BranchExists(r, req.branch) && RevParseFails !in faults
    requires Attempt(r, req, faults).Some? && NoOptionDeletes(req.edit.changes)
    requires base == match req.base
               case Name(name) => RevParse(r, name)
               case Id(sha) => Some(sha)
               case Unset => if r.head in r.refs then Some(r.refs[r.head]) else None
    requires base.Some? && p in base.value.tree ==> !Protected(p)
    ensures
      var c := Attempt(r, req, faults).value;
      && c.parent == base
      && Lookup(c.tree, p) ==
           (if Touches(req.edit.changes, p) then LastChange(req.edit.changes, p)
            else if base.Some? && p in base.value.tree then Some(base.value.tree[p]) else None)
      && RefIs(AfterWrite(r, req, faults), ref,
               if ref == BranchRef(req.branch) then Some(c) else if ref in r.refs then Some(r.refs[ref]) else None)
  {
    CommitParent(r, req, faults);
    CommitContents(r, req, faults, p);
  }

  /** A full branch ref is no object id and the first name rev-parse tries, so nothing shadows it. */
  lemma FirstCandidate(r: Repo, branch: string)
    requires BranchExists(r, branch)
    ensures RevParse(r, BranchRef(branch)) == Some(r.refs[BranchRef(branch)])
  {
    var name := BranchRef(branch);
    assert name[0] == 'r' && name[0] in name;
    assert !IsFullId(name) && !IsOption(name) && Spelt(name) == name;
    assert |name| >= 11 && name != "HEAD";
    assert Candidates(r, name)[0] == name;
  }
}
