/** What replaying the edits of a manifest gives: the version that installing them one by one gave
    (version_set.cc). */
module Manifests {
  import opened Wrappers
  import opened Entries
  import opened Versions
  import opened Builders

  const EMPTY_VERSION: Version := [[], [], [], [], [], [], []]

  /** `versions` are the versions LogAndApply installed, one per edit, starting from versions[0]. */
  ghost predicate InstalledInOrder(versions: seq<Version>, edits: seq<VersionEdit>) {
    && |versions| == |edits| + 1
    && (forall i, l: LevelNumber :: 0 <= i < |versions| ==> SortedBySmallest(versions[i][l]))
    && (forall i, l: LevelNumber :: 0 <= i < |edits| ==>
         FilesOf(versions[i + 1][l]) == ApplyToLevel(FilesOf(versions[i][l]), edits[i], l))
  }

  lemma {:induction false} InstallingIsReplay(versions: seq<Version>, edits: seq<VersionEdit>, l: LevelNumber)
    requires InstalledInOrder(versions, edits)
    ensures FilesOf(versions[|edits|][l]) == Replay(FilesOf(versions[0][l]), edits, l)
  {
    if edits != [] {
      var n := |edits| - 1;
      InstallingIsReplay(versions[..n + 1], edits[..n], l);
    }
  }

  /** The version recovered by one builder is the one the running database had installed last. */
  lemma RecoveredIsInstalled(recovered: Version, versions: seq<Version>, edits: seq<VersionEdit>)
    requires InstalledInOrder(versions, edits)
    requires forall l: LevelNumber :: SortedBySmallest(recovered[l])
    requires forall l: LevelNumber :: FilesOf(recovered[l]) == Replay(FilesOf(versions[0][l]), edits, l)
    ensures recovered == versions[|edits|]
  {
    forall l: LevelNumber ensures recovered[l] == versions[|edits|][l] {
      InstallingIsReplay(versions, edits, l);
      SortedListingIsUnique(recovered[l], versions[|edits|][l]);
    }
  }

  /** The record WriteSnapshot starts a manifest with. */
  ghost predicate IsSnapshotOf(edit: VersionEdit, v: Version) {
    && edit.deletedFiles == {}
    && forall l: LevelNumber :: AddedAt(edit.newFiles, l) == FilesOf(v[l]) && NoRepeats(edit.newFiles, l)
  }

  lemma {:induction false} ReplayAfterSnapshot(snapshot: VersionEdit, v: Version, edits: seq<VersionEdit>,
                                               l: LevelNumber)
    requires IsSnapshotOf(snapshot, v) && AddsAreFresh(FilesOf(v[l]), edits, l)
    ensures Replay({}, [snapshot] + edits, l) == Replay(FilesOf(v[l]), edits, l)
    ensures EverAdded({}, [snapshot] + edits, l) == EverAdded(FilesOf(v[l]), edits, l)
    ensures AddsAreFresh({}, [snapshot] + edits, l)
  {
    var all := [snapshot] + edits;
    if edits == [] {
      assert all[..0] == [] && all[0] == snapshot;
    } else {
      ReplayAfterSnapshot(snapshot, v, edits[..|edits| - 1], l);
      assert all[..|all| - 1] == [snapshot] + edits[..|edits| - 1];
      assert all[|all| - 1] == edits[|edits| - 1];
    }
  }

  lemma {:induction false} PrefixIsFresh(files: set<File>, edits: seq<VersionEdit>, n: nat, l: LevelNumber)
    requires AddsAreFresh(files, edits, l) && n <= |edits|
    ensures AddsAreFresh(files, edits[..n], l)
  {
    if n < |edits| {
      PrefixIsFresh(files, edits[..|edits| - 1], n, l);
      assert edits[..|edits| - 1][..n] == edits[..n];
    } else {
      assert edits[..n] == edits;
    }
  }

  lemma AddOneFile(newFiles: seq<(LevelNumber, File)>, l: LevelNumber, f: File)
    requires forall k: LevelNumber :: NoRepeats(newFiles, k)
    requires forall g :: g in AddedAt(newFiles, l) ==> g.number != f.number
    ensures forall k: LevelNumber :: NoRepeats(newFiles + [(l, f)], k)
    ensures forall k: LevelNumber ::
      AddedAt(newFiles + [(l, f)], k) == AddedAt(newFiles, k) + if k == l then {f} else {}
  {
    var r := newFiles + [(l, f)];
    assert r[..|newFiles|] == newFiles && r[|newFiles|] == (l, f);
    AddedAtNext(r, |newFiles|);
    forall k: LevelNumber ensures AddedAt(r, k) == AddedAt(newFiles, k) + if k == l then {f} else {} {
      assert r[..|newFiles| + 1] == r;
      assert AddedAt(r[..|newFiles| + 1], k) == AddedAt(r[..|newFiles|], k) + if k == l then {f} else {};
    }
    forall i | 0 <= i < |newFiles| && newFiles[i].0 == l ensures newFiles[i].1.number != f.number {
      assert newFiles[i] in newFiles && newFiles[i].1 in AddedAt(newFiles, l);
    }
    forall k: LevelNumber ensures NoRepeats(r, k) {
      NoRepeatsAppend(newFiles, l, f, k);
    }
  }

  lemma NoRepeatsAppend(newFiles: seq<(LevelNumber, File)>, l: LevelNumber, f: File, k: LevelNumber)
    requires NoRepeats(newFiles, k)
    requires forall i :: 0 <= i < |newFiles| && newFiles[i].0 == l ==> newFiles[i].1.number != f.number
    ensures NoRepeats(newFiles + [(l, f)], k)
  {
    var r := newFiles + [(l, f)];
    forall i, j | 0 <= i < j < |r| && r[i].0 == k && r[j].0 == k ensures r[i].1.number != r[j].1.number {
      assert r[i] == newFiles[i];
    }
  }
}
