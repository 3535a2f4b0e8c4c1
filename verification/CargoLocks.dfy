/** Advisory locks taken on Cargo's lock files while artifacts are deleted. */
module CargoLocks {

  /** A lock path found below `target`; `ino` is the file it opens, if it opens. */
  datatype LockPath = LockPath(ino: nat, openable: bool)

  datatype HoldResult = Held | Busy | Unopenable

  /** Every path opens, no other process holds its file, and no two paths are the
      same file: `flock` conflicts between two handles even in one process. */
  predicate Obtainable(paths: seq<LockPath>, foreign: set<nat>) {
    && (forall k :: 0 <= k < |paths| ==> paths[k].openable && paths[k].ino !in foreign)
    && (forall j, k :: 0 <= j < k < |paths| ==> paths[j].ino != paths[k].ino)
  }

  /** Path `k` is the first that cannot be locked. */
  predicate Obstacle(paths: seq<LockPath>, foreign: set<nat>, k: nat) {
    k < |paths| && Obtainable(paths[..k], foreign) && !Obtainable(paths[..k + 1], foreign)
  }

  ghost predicate StopsAt(paths: seq<LockPath>, foreign: set<nat>, openable: bool) {
    exists k: nat :: Obstacle(paths, foreign, k) && paths[k].openable == openable
  }

  lemma Conflicts(paths: seq<LockPath>, foreign: set<nat>, k: nat)
    requires k < |paths|
    requires paths[k].ino in foreign || exists j :: 0 <= j < k && paths[j].ino == paths[k].ino
    ensures !Obtainable(paths[..k + 1], foreign)
  {
    var upTo := paths[..k + 1];
    assert upTo[k] == paths[k];
    if paths[k].ino !in foreign {
      var j :| 0 <= j < k && paths[j].ino == paths[k].ino;
      assert upTo[j] == paths[j];
    }
  }

  class Locks {
    const paths: seq<LockPath>
    /** Files locked by other processes. */
    const foreign: set<nat>
    /** Files this process holds locked, in acquisition order. */
    var handles: seq<nat>

    constructor (paths: seq<LockPath>, foreign: set<nat>)
      ensures this.paths == paths && this.foreign == foreign && handles == []
    {
      this.paths := paths;
      this.foreign := foreign;
      handles := [];
    }

    /** Takes every lock or none: whatever the failure, nothing stays locked. */
    method Hold() returns (r: HoldResult)
      requires handles == []
      modifies this
      ensures r == Held <==> Obtainable(paths, foreign)
      ensures r == Held ==> |handles| == |paths| && forall k :: 0 <= k < |paths| ==> handles[k] == paths[k].ino
      ensures r != Held ==> handles == [] && StopsAt(paths, foreign, r == Busy)
    {
      r := Held;
      var k := 0;
      while k < |paths|
        invariant 0 <= k <= |paths| && r == Held
        invariant |handles| == k && forall j :: 0 <= j < k ==> handles[j] == paths[j].ino
        invariant Obtainable(paths[..k], foreign)
      {
        var path := paths[k];
        if !path.openable {
          r := Unopenable;
          assert paths[..k + 1][k] == path;
          assert Obstacle(paths, foreign, k);
          break;
        }
        if path.ino in foreign || path.ino in handles {
          r := Busy;
          Conflicts(paths, foreign, k);
          assert Obstacle(paths, foreign, k);
          break;
        }
        handles := handles + [path.ino];
        k := k + 1;
      }
      if r != Held {
        Release();
      } else {
        assert paths[..k] == paths;
      }
    }

    method Release()
      modifies this
      ensures handles == []
    {
      while handles != []
        decreases |handles|
      {
        handles := handles[..|handles| - 1];
      }
    }
  }
}
