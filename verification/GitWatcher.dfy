/**
 The watcher of the git backend (src/storage_backends/git/mod.rs): rounds that
 probe the remote branch, move the local branch after it and tell the centre.

 libgit2 and the network are represented by the outcome of a round: what the
 remote listed, and which of the later operations succeed.
 */
module GitWatcher {
  import opened Common
  import opened Stores
  import opened CfgCenter

  datatype RemoteHead = RemoteHead(name: string, oid: ObjectID)

  /** `heads` is what the remote lists, if it can be reached; `commits` are the
      commits in the local repository after the fetch, with their messages where
      these are UTF-8; `reread` tells whether the local branch can be read back. */
  datatype Attempt = Attempt(heads: Option<seq<RemoteHead>>, fetched: bool, commits: map<ObjectID, Option<string>>,
                             branched: bool, reread: bool)

  datatype Synced = Failed | Unmoved | Moved(version: VersionItem) | Panicked

  /** The commit of the first listed head with the name. */
  function HeadNamed(heads: seq<RemoteHead>, name: string): Option<ObjectID> {
    if heads == [] then None
    else if heads[0].name == name then Some(heads[0].oid)
    else HeadNamed(heads[1..], name)
  }

  /** The head of the branch in a round in which every operation succeeds. */
  function CompleteHead(a: Attempt, ref: string): Option<ObjectID> {
    if a.heads.None? then None
    else
      var head := HeadNamed(a.heads.value, ref);
      if head.Some? && a.fetched && head.value in a.commits && a.branched then head else None
  }

  ghost predicate IsFirstHead(heads: seq<RemoteHead>, i: nat, name: string) {
    i < |heads| && heads[i].name == name && forall j | 0 <= j < i :: heads[j].name != name
  }

  /** It is the first head with exactly the name. */
  lemma {:induction false} HeadNamedIs(heads: seq<RemoteHead>, name: string, oid: ObjectID)
    ensures HeadNamed(heads, name) == Some(oid) <==> exists i: nat :: IsFirstHead(heads, i, name) && heads[i].oid == oid
    ensures HeadNamed(heads, name).None? <==> forall i | 0 <= i < |heads| :: heads[i].name != name
  {
    if heads != [] {
      if heads[0].name == name {
        assert IsFirstHead(heads, 0, name);
        assert forall i: nat | i > 0 :: !IsFirstHead(heads, i, name);
      } else {
        HeadNamedIs(heads[1..], name, oid);
        assert forall i | 0 <= i < |heads| - 1 :: heads[1..][i] == heads[i + 1];
        forall i: nat ensures IsFirstHead(heads[1..], i, name) <==> IsFirstHead(heads, i + 1, name) {
          if IsFirstHead(heads, i + 1, name) {
            assert forall j | 0 <= j < i :: heads[1..][j] == heads[j + 1];
          }
        }
        assert !IsFirstHead(heads, 0, name);
        if i: nat :| IsFirstHead(heads[1..], i, name) && heads[1..][i].oid == oid {
          assert IsFirstHead(heads, i + 1, name) && heads[i + 1].oid == oid;
        }
        if i: nat :| IsFirstHead(heads, i, name) && heads[i].oid == oid {
          assert IsFirstHead(heads[1..], i - 1, name) && heads[1..][i - 1].oid == oid;
        }
      }
    }
  }

  /** A round is complete with a head when every operation succeeds and the head is
      the first one listed for the branch. */
  lemma CompleteHeadIs(a: Attempt, ref: string, oid: ObjectID)
    ensures CompleteHead(a, ref) == Some(oid) <==>
      && a.heads.Some? && a.fetched && a.branched && oid in a.commits
      && exists i: nat :: IsFirstHead(a.heads.value, i, ref) && a.heads.value[i].oid == oid
  {
    if a.heads.Some? {
      HeadNamedIs(a.heads.value, ref, oid);
    }
  }

  function MessageOrEmpty(message: Option<string>): string { if message.Some? then message.value else "" }

  /** The remote lists no such branch, and yet the fetch succeeds: there the source panics. */
  predicate Panics(a: Attempt, ref: string) {
    a.heads.Some? && HeadNamed(a.heads.value, ref).None? && a.fetched
  }

  /** A round panics when it fetches from a remote none of whose heads is the branch's. */
  lemma PanicsIs(a: Attempt, ref: string)
    ensures Panics(a, ref) <==>
      a.heads.Some? && a.fetched && forall i | 0 <= i < |a.heads.value| :: a.heads.value[i].name != ref
  {
    if a.heads.Some? {
      HeadNamedIs(a.heads.value, ref, "");
    }
  }

  /** Commit ids are not empty. */
  predicate RealIds(a: Attempt) { a.heads.Some? ==> forall h | h in a.heads.value :: h.oid != "" }

  lemma {:induction false} HeadIsReal(heads: seq<RemoteHead>, ref: string)
    requires forall h | h in heads :: h.oid != ""
    ensures HeadNamed(heads, ref) != Some("")
  {
    if heads != [] {
      HeadIsReal(heads[1..], ref);
    }
  }

  /** The rounds before one that panics. */
  function UntilPanic(rounds: seq<Attempt>, ref: string): seq<Attempt> {
    if rounds == [] || Panics(rounds[0], ref) then [] else [rounds[0]] + UntilPanic(rounds[1..], ref)
  }

  class GitBackend {
    const targetBranchName: string
    var localBranch: Option<ObjectID>
    var curVersion: VersionItem

    constructor (targetBranchName: string, localBranch: Option<ObjectID>)
      ensures this.targetBranchName == targetBranchName && this.localBranch == localBranch
      ensures curVersion == VersionItem("", "")
    {
      this.targetBranchName, this.localBranch := targetBranchName, localBranch;
      curVersion := VersionItem("", "");
    }

    function Ref(): string { "refs/heads/" + targetBranchName }

    /** `git_sync_local_branch`: moves the local branch only if everything succeeds. */
    method SyncLocalBranch(a: Attempt) returns (r: Synced)
      modifies this`localBranch
      ensures r.Moved? <==>
        var head := CompleteHead(a, "refs/heads/" + targetBranchName);
        head.Some? && head.value != curVersion.id
      ensures r.Moved? ==> localBranch == CompleteHead(a, "refs/heads/" + targetBranchName) == Some(r.version.id)
      ensures r.Moved? ==>
        var message := a.commits[r.version.id];
        message == Some(r.version.name) || (message.None? && r.version.name == "")
      ensures r.Unmoved? <==>
        a.heads.Some? && HeadNamed(a.heads.value, "refs/heads/" + targetBranchName) == Some(curVersion.id)
      ensures r.Panicked? <==> Panics(a, "refs/heads/" + targetBranchName)
      ensures !r.Moved? ==> localBranch == old(localBranch)
    {
      if a.heads.None? {
        return Failed;
      }
      var newestRemoteCommitId: Option<ObjectID> := None;
      var heads := a.heads.value;
      assert heads[0..] == heads;
      for i := 0 to |heads|
        invariant newestRemoteCommitId.None? && HeadNamed(heads, Ref()) == HeadNamed(heads[i..], Ref())
      {
        assert heads[i..][0] == heads[i] && heads[i..][1..] == heads[i + 1..];
        if heads[i].name == Ref() {
          if heads[i].oid == curVersion.id {
            return Unmoved;
          }
          newestRemoteCommitId := Some(heads[i].oid);
          break;
        }
      }
      if !a.fetched {
        return Failed;
      }
      if newestRemoteCommitId.None? {
        return Panicked;
      }
      var newest := newestRemoteCommitId.value;
      if newest !in a.commits || !a.branched {
        return Failed;
      }
      localBranch := Some(newest);
      r := Moved(VersionItem(MessageOrEmpty(a.commits[newest]), newest));
    }

    /** `GitBackend::new`: one sync that must not fail, then the version of the local branch. */
    static method Open(targetBranchName: string, localBranch: Option<ObjectID>, a: Attempt)
      returns (r: Option<GitBackend>, panicked: bool)
      requires RealIds(a)
      ensures r.Some? <==>
        var head := CompleteHead(a, "refs/heads/" + targetBranchName);
        head.Some? && a.reread && a.commits[head.value].Some?
      ensures panicked <==> Panics(a, "refs/heads/" + targetBranchName)
      ensures r.Some? ==> fresh(r.value) && r.value.targetBranchName == targetBranchName
      ensures r.Some? ==> r.value.localBranch == Some(r.value.curVersion.id)
      ensures r.Some? ==> CompleteHead(a, "refs/heads/" + targetBranchName) == Some(r.value.curVersion.id)
      ensures r.Some? ==> a.commits[r.value.curVersion.id] == Some(r.value.curVersion.name)
    {
      var backend := new GitBackend(targetBranchName, localBranch);
      if a.heads.Some? {
        HeadIsReal(a.heads.value, backend.Ref());
      }
      var synced := backend.SyncLocalBranch(a);
      if !synced.Moved? {
        return None, synced.Panicked?;
      }
      var id := backend.localBranch.value;
      if !a.reread || a.commits[id].None? {
        return None, false;
      }
      backend.curVersion := VersionItem(a.commits[id].value, id);
      r, panicked := Some(backend), false;
    }

    /** The local branch, the backend and the centre are at one commit. */
    ghost predicate Agrees(center: CFGCenter)
      reads this, center
    {
      localBranch == Some(curVersion.id) && center.currentVersion.id == curVersion.id
    }

    /** One round of the watcher, which adds what it sends to the centre. */
    method Round(center: CFGCenter, a: Attempt, before: seq<VersionItem>)
      returns (delivered: seq<VersionItem>, panicked: bool)
      requires center.Valid() && Agrees(center)
      modifies this`localBranch, this`curVersion, center`currentVersion, center.namespaces.Values
      ensures center.Valid() && Agrees(center) && center.namespaces == old(center.namespaces)
      ensures panicked <==> Panics(a, Ref())
      ensures Ids(delivered) == Ids(before) + MoveFrom(old(curVersion.id), a, Ref())
      ensures curVersion.id == Last(old(curVersion.id), MoveFrom(old(curVersion.id), a, Ref()))
    {
      var synced := SyncLocalBranch(a);
      delivered, panicked := before, synced.Panicked?;
      if synced.Moved? {
        center.UpdateCallback(synced.version);
        curVersion := synced.version;
        IdsSnoc(before, synced.version);
        delivered := before + [synced.version];
      }
    }

    /** The watcher's loop, over any sequence of rounds, up to a panic that ends its
        thread; `delivered` are the events it sends to the centre. */
    method Watch(center: CFGCenter, rounds: seq<Attempt>) returns (delivered: seq<VersionItem>)
      requires center.Valid() && Agrees(center)
      modifies this`localBranch, this`curVersion, center`currentVersion, center.namespaces.Values
      ensures center.Valid() && Agrees(center) && center.namespaces == old(center.namespaces)
      ensures Ids(delivered) == Moves(old(curVersion.id), UntilPanic(rounds, Ref()), Ref())
      ensures curVersion.id == Last(old(curVersion.id), Ids(delivered))
    {
      ghost var start := curVersion.id;
      delivered := [];
      ghost var n := LengthUntilPanic(rounds, Ref());
      var k := 0;
      while k < |rounds|
        invariant k <= n
        invariant center.Valid() && Agrees(center) && center.namespaces == old(center.namespaces)
        invariant Tracks(start, rounds, k, Ref(), delivered, curVersion.id)
      {
        ghost var before, id := delivered, curVersion.id;
        var panicked;
        delivered, panicked := Round(center, rounds[k], delivered);
        if panicked {
          break;
        }
        TracksOn(start, rounds, k, Ref(), before, delivered, id);
        k := k + 1;
      }
    }
  }

  lemma {:induction false} LengthUntilPanic(rounds: seq<Attempt>, ref: string) returns (n: nat)
    ensures n <= |rounds| && UntilPanic(rounds, ref) == rounds[..n]
    ensures forall k | 0 <= k < n :: !Panics(rounds[k], ref)
    ensures n < |rounds| ==> Panics(rounds[n], ref)
  {
    n := 0;
    if rounds != [] && !Panics(rounds[0], ref) {
      var m := LengthUntilPanic(rounds[1..], ref);
      n := m + 1;
      assert rounds[..n] == [rounds[0]] + rounds[1..][..m];
      assert forall k | 1 <= k < |rounds| :: rounds[k] == rounds[1..][k - 1];
    }
  }

  function Ids(versions: seq<VersionItem>): (ids: seq<ObjectID>)
    ensures |ids| == |versions| && forall k | 0 <= k < |ids| :: ids[k] == versions[k].id
  {
    if versions == [] then [] else Ids(versions[..|versions| - 1]) + [versions[|versions| - 1].id]
  }

  lemma IdsSnoc(versions: seq<VersionItem>, v: VersionItem)
    ensures Ids(versions + [v]) == Ids(versions) + [v.id]
  {
  }

  function Last(start: ObjectID, ids: seq<ObjectID>): ObjectID {
    if ids == [] then start else ids[|ids| - 1]
  }

  /** The commits the watcher moves to from `start`. */
  function Moves(start: ObjectID, rounds: seq<Attempt>, ref: string): seq<ObjectID> {
    if rounds == [] then []
    else
      var before := Moves(start, rounds[..|rounds| - 1], ref);
      before + MoveFrom(Last(start, before), rounds[|rounds| - 1], ref)
  }

  /** The commit that a round moves to from `id`, if it moves. */
  function MoveFrom(id: ObjectID, a: Attempt, ref: string): seq<ObjectID> {
    var head := CompleteHead(a, ref);
    if head.Some? && head.value != id then [head.value] else []
  }

  /** After `k` rounds, the moves are delivered and the last one led to `id`. */
  ghost predicate Tracks(start: ObjectID, rounds: seq<Attempt>, k: nat, ref: string, delivered: seq<VersionItem>,
      id: ObjectID)
    requires k <= |rounds|
  {
    Ids(delivered) == Moves(start, rounds[..k], ref) && id == Last(start, Ids(delivered))
  }

  lemma TracksOn(start: ObjectID, rounds: seq<Attempt>, k: nat, ref: string, before: seq<VersionItem>,
      delivered: seq<VersionItem>, id: ObjectID)
    requires k < |rounds| && Tracks(start, rounds, k, ref, before, id)
    requires Ids(delivered) == Ids(before) + MoveFrom(id, rounds[k], ref)
    ensures Tracks(start, rounds, k + 1, ref, delivered, Last(id, MoveFrom(id, rounds[k], ref)))
  {
    assert rounds[..k + 1][..k] == rounds[..k];
  }

  /** The heads of the complete rounds. */
  function CompleteHeads(rounds: seq<Attempt>, ref: string): seq<ObjectID> {
    if rounds == [] then []
    else
      var head := CompleteHead(rounds[|rounds| - 1], ref);
      CompleteHeads(rounds[..|rounds| - 1], ref) + if head.Some? then [head.value] else []
  }

  /** A sequence without the elements that repeat the one before them. */
  function WithoutRepeats(start: ObjectID, ids: seq<ObjectID>): seq<ObjectID>
    decreases |ids|
  {
    if ids == [] then []
    else if ids[0] == start then WithoutRepeats(start, ids[1..])
    else [ids[0]] + WithoutRepeats(ids[0], ids[1..])
  }

  lemma {:induction false} WithoutRepeatsSnoc(start: ObjectID, ids: seq<ObjectID>, id: ObjectID)
    ensures Last(start, WithoutRepeats(start, ids)) == Last(start, ids)
    ensures WithoutRepeats(start, ids + [id])
         == WithoutRepeats(start, ids) + if id == Last(start, ids) then [] else [id]
    decreases |ids|
  {
    if ids == [] {
      assert [] + [id] == [id];
    } else {
      assert (ids + [id])[1..] == ids[1..] + [id];
      WithoutRepeatsSnoc(if ids[0] == start then start else ids[0], ids[1..], id);
    }
  }

  /** What is delivered are the heads that complete rounds saw, each change once:
      failed rounds only delay. */
  lemma {:induction false} MovesAreChanges(start: ObjectID, rounds: seq<Attempt>, ref: string)
    ensures Moves(start, rounds, ref) == WithoutRepeats(start, CompleteHeads(rounds, ref))
    ensures Last(start, Moves(start, rounds, ref)) == Last(start, CompleteHeads(rounds, ref))
  {
    if rounds != [] {
      var n := |rounds| - 1;
      MovesAreChanges(start, rounds[..n], ref);
      var head, before := CompleteHead(rounds[n], ref), CompleteHeads(rounds[..n], ref);
      if head.Some? {
        WithoutRepeatsSnoc(start, before, head.value);
        assert CompleteHeads(rounds, ref) == before + [head.value];
      } else {
        assert CompleteHeads(rounds, ref) == before;
      }
    }
  }

  /** No element is the one before it, and the first is not `start`. */
  predicate AlwaysChanges(start: ObjectID, ids: seq<ObjectID>) {
    ids != [] ==>
      var n := |ids| - 1;
      ids[n] != Last(start, ids[..n]) && AlwaysChanges(start, ids[..n])
  }

  /** Two events in a row never have the same id, nor the first that of the start. */
  lemma {:induction false} DeliveriesChange(start: ObjectID, rounds: seq<Attempt>, ref: string)
    ensures AlwaysChanges(start, Moves(start, rounds, ref))
  {
    if rounds != [] {
      var n := |rounds| - 1;
      DeliveriesChange(start, rounds[..n], ref);
      var before, ids := Moves(start, rounds[..n], ref), Moves(start, rounds, ref);
      assert ids != before ==> ids[..|ids| - 1] == before;
    }
  }
}
