// `PagedLOD` of the 3MXB streaming component: the tiles of one scene, refined and coarsened
// frame by frame. `Traverse` commits staged children, starts staging where more detail is
// wanted and turns back staged children that are no longer wanted, keeping the component's
// `stagingCount` equal to the number of tiles being staged or staged and its `loadCount`
// counting commits. The stage tasks handed to the producer-consumer queue are recorded in
// order; a task ends by marking its tile Staged (`FinishStaging`).
module Unity3mxbLod {
  import opened Culling
  import opened LodNodes

  /** Where a visible tile that wants its children goes: a staged tile is committed, an
      unstaged one starts staging, the others stay. */
  function Advanced(s: ChildrenStatus): ChildrenStatus
  {
    match s
    case Staged => Commited
    case Unstaged => Staging
    case _ => s
  }

  /** The counts of each status are those of a. */
  ghost predicate SameCounts(a: seq<Node>, b: seq<Node>)
  {
    Count(a, Unstaged) == Count(b, Unstaged) && Count(a, Staging) == Count(b, Staging) &&
    Count(a, Staged) == Count(b, Staged) && Count(a, Commited) == Count(b, Commited)
  }

  /** Changing a tile but not its status changes no count. */
  lemma SameStatusSameCounts(nodes: seq<Node>, i: nat, n: Node)
    requires i < |nodes| && n.status == nodes[i].status
    ensures SameCounts(nodes, nodes[i := n])
  {
    CountUpdate(nodes, i, n, Unstaged);
    CountUpdate(nodes, i, n, Staging);
    CountUpdate(nodes, i, n, Staged);
    CountUpdate(nodes, i, n, Commited);
  }

  /** From (a, ta) to (b, tb) stage tasks were only appended, each for a tile now staging, one
      per tile that started staging. */
  ghost predicate TasksFollow(a: seq<Node>, ta: seq<nat>, b: seq<Node>, tb: seq<nat>)
  {
    |ta| <= |tb| && tb[..|ta|] == ta &&
    (forall t :: |ta| <= t < |tb| ==> tb[t] < |b| && b[tb[t]].status == Staging) &&
    |tb| - |ta| == Count(b, Staging) - Count(a, Staging)
  }

  lemma TasksFollowTransitive(a: seq<Node>, ta: seq<nat>, b: seq<Node>, tb: seq<nat>, c: seq<Node>, tc: seq<nat>)
    requires TasksFollow(a, ta, b, tb) && TasksFollow(b, tb, c, tc) && Evolved(b, c)
    ensures TasksFollow(a, ta, c, tc)
  {
    forall t | |ta| <= t < |tc| ensures tc[t] < |c| && c[tc[t]].status == Staging {
      if t < |tb| {
        assert tc[t] == tb[t];
      }
    }
  }

  /** From (a, ta) to (b, tb) the tiles evolved, stage tasks followed, and every frame number
      that changed became `time`. */
  ghost predicate Stepped(a: seq<Node>, ta: seq<nat>, b: seq<Node>, tb: seq<nat>, time: int)
  {
    Evolved(a, b) && TasksFollow(a, ta, b, tb) &&
    forall i :: 0 <= i < |a| && b[i].frame != a[i].frame ==> b[i].frame == time
  }

  lemma SteppedTransitive(a: seq<Node>, ta: seq<nat>, b: seq<Node>, tb: seq<nat>, c: seq<Node>, tc: seq<nat>, time: int)
    requires Stepped(a, ta, b, tb, time) && Stepped(b, tb, c, tc, time)
    ensures Stepped(a, ta, c, tc, time)
  {
    EvolvedTransitive(a, b, c);
    TasksFollowTransitive(a, ta, b, tb, c, tc);
  }

  /** A traversal's own frame update followed by a step at `time` that leaves that frame. */
  lemma FrameThenStep(a: seq<Node>, ta: seq<nat>, b: seq<Node>, c: seq<Node>, tc: seq<nat>,
                      id: nat, frameCount: int, time: int)
    requires id < |a| && b == a[id := a[id].(frame := frameCount)]
    requires Stepped(b, ta, c, tc, time) && c[id].frame == b[id].frame
    ensures Evolved(a, c) && TasksFollow(a, ta, c, tc)
    ensures forall i :: 0 <= i < |a| && i != id && c[i].frame != a[i].frame ==> c[i].frame == time
  {
    CountUpdate(a, id, b[id], Staging);
  }

  class LodTree {
    /** The tiles. */
    var nodes: seq<Node>
    /** The tiles whose `StageTask` went to the queue, in order. */
    var stageTasks: seq<nat>

    ghost predicate Valid()
      reads this
    {
      Ordered(nodes) && forall t :: 0 <= t < |stageTasks| ==> stageTasks[t] < |nodes|
    }

    /** `PagedLOD(name, dir, parent transform, depth)`: the component's root tile. */
    constructor (depth: int, sphere: TileBoundingSphere, maxScreenDiameter: real, files: seq<string>)
      ensures Valid()
      ensures nodes == [NewNode(depth, sphere, maxScreenDiameter, files, true)] && stageTasks == []
    {
      nodes := [NewNode(depth, sphere, maxScreenDiameter, files, true)];
      stageTasks := [];
    }

    /** `new PagedLOD(name, dir, Parent)` followed by `Parent.CommitedChildren.Add`, as a loader
        does for each node of a tile file: an Unstaged child one level deeper, added last. */
    method AddChild(parent: nat, sphere: TileBoundingSphere, maxScreenDiameter: real, files: seq<string>)
      returns (id: nat)
      requires Valid() && parent < |nodes|
      modifies this
      ensures Valid() && id == |old(nodes)| && stageTasks == old(stageTasks)
      ensures nodes == old(nodes)[parent := old(nodes[parent]).(children := old(nodes[parent].children) + [id])] +
                       [NewNode(old(nodes[parent].depth) + 1, sphere, maxScreenDiameter, files, true)]
      ensures nodes[id].depth == nodes[parent].depth + 1 && nodes[id].status == Unstaged
      ensures Pending(nodes) == Pending(old(nodes))
    {
      id := |nodes|;
      var p := nodes[parent];
      var before := nodes[parent := p.(children := p.children + [id])];
      SameStatusSameCounts(nodes, parent, p.(children := p.children + [id]));
      nodes := before + [NewNode(p.depth + 1, sphere, maxScreenDiameter, files, true)];
      assert nodes[..|nodes| - 1] == before;
    }

    /** `UnloadChildren`: the committed children are dropped and the tile is Unstaged again. */
    method UnloadChildren(id: nat)
      requires Valid() && id < |nodes|
      modifies this
      ensures Valid() && stageTasks == old(stageTasks)
      ensures nodes == old(nodes)[id := old(nodes[id]).(children := [], status := Unstaged)]
      ensures Pending(nodes) ==
              Pending(old(nodes)) - (if old(nodes[id].status) == Staging || old(nodes[id].status) == Staged then 1 else 0)
    {
      var n := nodes[id].(children := [], status := Unstaged);
      CountUpdate(nodes, id, n, Staging);
      CountUpdate(nodes, id, n, Staged);
      nodes := nodes[id := n];
    }

    /** The end of a `StageTask`: the tile's children are staged. */
    method FinishStaging(id: nat)
      requires Valid() && id < |nodes|
      modifies this
      ensures Valid() && stageTasks == old(stageTasks)
      ensures nodes == old(nodes)[id := old(nodes[id]).(status := Staged)]
      ensures old(nodes[id].status) == Staging ==> Pending(nodes) == Pending(old(nodes))
    {
      var n := nodes[id].(status := Staged);
      CountUpdate(nodes, id, n, Staging);
      CountUpdate(nodes, id, n, Staged);
      nodes := nodes[id := n];
    }

    /** `MarkStagingChildren(ref stagingCount)`: nothing when the count is 0; false for an
        Unstaged tile, true for a Staging one; a Staged tile turns Unstaged and is no longer
        counted; a committed tile asks each child that is not itself staging, and answers
        whether any child is staging or answered true. When the count is the number of tiles
        being staged or staged, the answer is whether staging goes on below the tile. */
    method MarkStagingChildren(id: nat, stagingCount: int) returns (hasStagingChild: bool, count: int)
      requires Valid() && id < |nodes|
      modifies this
      decreases |nodes| - id, 1
      ensures Valid() && Demoted(old(nodes), nodes) && stageTasks == old(stageTasks)
      ensures forall i :: 0 <= i < id ==> nodes[i] == old(nodes[i])
      ensures old(nodes[id].status) != Staged ==> nodes[id] == old(nodes[id])
      ensures count - Pending(nodes) == stagingCount - Pending(old(nodes))
      ensures 0 <= stagingCount ==> 0 <= count <= stagingCount
      ensures stagingCount == 0 ==> !hasStagingChild && nodes == old(nodes)
      ensures stagingCount != 0 && old(nodes[id].status) == Unstaged ==> !hasStagingChild && nodes == old(nodes)
      ensures stagingCount != 0 && old(nodes[id].status) == Staging ==> hasStagingChild && nodes == old(nodes)
      ensures stagingCount != 0 && old(nodes[id].status) == Staged ==>
                !hasStagingChild && count == stagingCount - 1 &&
                nodes == old(nodes)[id := old(nodes[id]).(status := Unstaged)]
      ensures stagingCount == Pending(old(nodes)) ==> hasStagingChild == HasStaging(old(nodes), id)
    {
      if stagingCount == 0 {
        if HasStaging(nodes, id) {
          HasStagingCounted(nodes, id);
        }
        return false, stagingCount;
      }
      var n := nodes[id];
      if n.status == Unstaged {
        return false, stagingCount;
      } else if n.status == Staging {
        return true, stagingCount;
      } else if n.status == Staged {
        var m := n.(status := Unstaged);
        CountUpdate(nodes, id, m, Staging);
        CountUpdate(nodes, id, m, Staged);
        nodes := nodes[id := m];
        return false, stagingCount - 1;
      }
      hasStagingChild, count := false, stagingCount;
      ghost var n0 := nodes;
      var k := 0;
      while k < |n.children|
        invariant 0 <= k <= |n.children| && |nodes| == |n0|
        invariant Valid() && Demoted(n0, nodes) && stageTasks == old(stageTasks)
        invariant forall i :: 0 <= i <= id ==> nodes[i] == n0[i]
        invariant count - Pending(nodes) == stagingCount - Pending(n0)
        invariant 0 <= stagingCount ==> 0 <= count <= stagingCount
        invariant stagingCount == Pending(n0) ==>
                    (hasStagingChild <==> exists j :: 0 <= j < k && HasStaging(n0, n.children[j]))
      {
        ghost var before := nodes;
        DemotedKeepsHasStaging(n0, before, n.children[k]);
        hasStagingChild, count := MarkChild(id, k, hasStagingChild, count);
        DemotedTransitive(n0, before, nodes);
        k := k + 1;
      }
      assert stagingCount == Pending(n0) ==>
               (HasStaging(n0, id) <==> exists j :: 0 <= j < |n.children| && HasStaging(n0, n.children[j]));
    }

    /** One turn of the children loop of `MarkStagingChildren`. */
    method MarkChild(id: nat, k: nat, hasStagingChild: bool, stagingCount: int) returns (has: bool, count: int)
      requires Valid() && id < |nodes| && k < |nodes[id].children|
      modifies this
      decreases |nodes| - id, 0
      ensures Valid() && Demoted(old(nodes), nodes) && stageTasks == old(stageTasks)
      ensures forall i :: 0 <= i <= id ==> nodes[i] == old(nodes[i])
      ensures count - Pending(nodes) == stagingCount - Pending(old(nodes))
      ensures 0 <= stagingCount ==> 0 <= count <= stagingCount
      ensures stagingCount == Pending(old(nodes)) ==>
                has == (hasStagingChild || HasStaging(old(nodes), old(nodes[id].children[k])))
    {
      var child := nodes[id].children[k];
      assert id < child < |nodes|;
      if nodes[child].status == Staging {
        has, count := true, stagingCount;
      } else {
        var b;
        b, count := MarkStagingChildren(child, stagingCount);
        has := hasStagingChild || b;
      }
    }

    /** One tile's own change: any fields but its status, so no count moves. */
    method SetNode(id: nat, n: Node)
      requires Valid() && id < |nodes| && n.status == nodes[id].status && n.children == nodes[id].children
      modifies this
      ensures Valid() && nodes == old(nodes)[id := n] && stageTasks == old(stageTasks)
      ensures SameCounts(old(nodes), nodes)
    {
      SameStatusSameCounts(nodes, id, n);
      nodes := nodes[id := n];
    }

    /** The commit of a staged tile: Commited, one tile fewer counted as staging. */
    method CommitStaged(id: nat)
      requires Valid() && id < |nodes| && nodes[id].status == Staged
      modifies this
      ensures Valid() && nodes == old(nodes)[id := old(nodes[id]).(status := Commited)] && stageTasks == old(stageTasks)
      ensures Pending(nodes) == Pending(old(nodes)) - 1 && Count(nodes, Staging) == Count(old(nodes), Staging)
      ensures Count(nodes, Commited) == Count(old(nodes), Commited) + 1
    {
      var m := nodes[id].(status := Commited);
      CountUpdate(nodes, id, m, Staging);
      CountUpdate(nodes, id, m, Staged);
      CountUpdate(nodes, id, m, Commited);
      nodes := nodes[id := m];
    }

    /** The start of staging: Staging, counted, and its stage task queued. */
    method StartStaging(id: nat)
      requires Valid() && id < |nodes| && nodes[id].status == Unstaged
      modifies this
      ensures Valid() && nodes == old(nodes)[id := old(nodes[id]).(status := Staging)]
      ensures stageTasks == old(stageTasks) + [id]
      ensures Pending(nodes) == Pending(old(nodes)) + 1 && Count(nodes, Staging) == Count(old(nodes), Staging) + 1
      ensures Count(nodes, Commited) == Count(old(nodes), Commited)
    {
      var m := nodes[id].(status := Staging);
      CountUpdate(nodes, id, m, Staging);
      CountUpdate(nodes, id, m, Staged);
      CountUpdate(nodes, id, m, Commited);
      nodes := nodes[id := m];
      stageTasks := stageTasks + [id];
    }

    /** `Traverse(frameCount, camStates, ref loadCount, ref stagingCount)`. With no camera
        nothing changes. Otherwise the tile records the frame and is culled: a tile no camera
        sees is hidden and marks its staging children; a tile too small on screen or without
        child files is shown and marks them; otherwise a staged tile is committed (stagingCount
        down, loadCount up), a committed tile is hidden and its children are traversed at
        `time`, and any other tile is shown, an unstaged one starting to stage (stagingCount up,
        one stage task). The counters move with the numbers of tiles staging or staged, and of
        committed tiles. */
    method Traverse(id: nat, frameCount: int, time: int, cams: seq<CamState>, diameter: ScreenDiameter,
                    loadCount: int, stagingCount: int) returns (loads: int, staging: int)
      requires Valid() && id < |nodes|
      modifies this
      decreases |nodes| - id, 5
      ensures Valid() && Evolved(old(nodes), nodes) && TasksFollow(old(nodes), old(stageTasks), nodes, stageTasks)
      ensures forall i :: 0 <= i < id ==> nodes[i] == old(nodes[i])
      ensures staging - Pending(nodes) == stagingCount - Pending(old(nodes))
      ensures loads - loadCount == Count(nodes, Commited) - Count(old(nodes), Commited)
      ensures forall i :: 0 <= i < |nodes| && i != id && nodes[i].frame != old(nodes[i].frame) ==> nodes[i].frame == time
      ensures |cams| == 0 ==>
                nodes == old(nodes) && stageTasks == old(stageTasks) && loads == loadCount && staging == stagingCount
      ensures |cams| > 0 ==> nodes[id].frame == frameCount
      ensures |cams| > 0 ==>
                nodes[id].enabled ==
                (Visible(old(nodes[id].sphere), cams) &&
                 !(Refines(old(nodes[id]), cams, diameter) && Advanced(old(nodes[id].status)) == Commited))
      ensures |cams| > 0 && !Refines(old(nodes[id]), cams, diameter) && old(nodes[id].status) != Staged ==>
                nodes[id].status == old(nodes[id].status)
      ensures |cams| > 0 && !Refines(old(nodes[id]), cams, diameter) && old(nodes[id].status) == Staged ==>
                nodes[id].status == (if stagingCount == 0 then Staged else Unstaged)
      ensures |cams| > 0 && Refines(old(nodes[id]), cams, diameter) ==>
                nodes[id].status == Advanced(old(nodes[id].status))
      ensures |cams| > 0 && Refines(old(nodes[id]), cams, diameter) && Advanced(old(nodes[id].status)) == Commited ==>
                forall k :: 0 <= k < |nodes[id].children| ==> nodes[nodes[id].children[k]].frame == time
    {
      if |cams| == 0 {
        return loadCount, stagingCount;
      }
      loads, staging := Visit(id, frameCount, time, cams, diameter, loadCount, stagingCount);
    }

    /** `Traverse` with at least one camera. */
    method Visit(id: nat, frameCount: int, time: int, cams: seq<CamState>, diameter: ScreenDiameter,
                 loadCount: int, stagingCount: int) returns (loads: int, staging: int)
      requires Valid() && id < |nodes| && |cams| > 0
      modifies this
      decreases |nodes| - id, 4
      ensures Valid() && Evolved(old(nodes), nodes) && TasksFollow(old(nodes), old(stageTasks), nodes, stageTasks)
      ensures forall i :: 0 <= i < id ==> nodes[i] == old(nodes[i])
      ensures staging - Pending(nodes) == stagingCount - Pending(old(nodes))
      ensures loads - loadCount == Count(nodes, Commited) - Count(old(nodes), Commited)
      ensures forall i :: 0 <= i < |nodes| && i != id && nodes[i].frame != old(nodes[i].frame) ==> nodes[i].frame == time
      ensures nodes[id].frame == frameCount
      ensures nodes[id].enabled ==
              (Visible(old(nodes[id].sphere), cams) &&
               !(Refines(old(nodes[id]), cams, diameter) && Advanced(old(nodes[id].status)) == Commited))
      ensures !Refines(old(nodes[id]), cams, diameter) && old(nodes[id].status) != Staged ==>
                nodes[id].status == old(nodes[id].status)
      ensures !Refines(old(nodes[id]), cams, diameter) && old(nodes[id].status) == Staged ==>
                nodes[id].status == (if stagingCount == 0 then Staged else Unstaged)
      ensures Refines(old(nodes[id]), cams, diameter) ==> nodes[id].status == Advanced(old(nodes[id].status))
      ensures Refines(old(nodes[id]), cams, diameter) && Advanced(old(nodes[id].status)) == Commited ==>
                forall k :: 0 <= k < |nodes[id].children| ==> nodes[nodes[id].children[k]].frame == time
    {
      var n := nodes[id];
      SetNode(id, n.(frame := frameCount));
      ghost var n1, t1 := nodes, stageTasks;
      var isInside, screenDiameter := Cull(n.sphere, cams, diameter);
      if !isInside {
        loads := loadCount;
        staging := Coarsen(id, false, stagingCount);
      } else if screenDiameter < n.maxScreenDiameter || |n.childrenFiles| == 0 {
        loads := loadCount;
        staging := Coarsen(id, true, stagingCount);
      } else {
        loads, staging := Refine(id, time, cams, diameter, loadCount, stagingCount);
      }
      assert Stepped(n1, t1, nodes, stageTasks, time);
      FrameThenStep(old(nodes), old(stageTasks), n1, nodes, stageTasks, id, frameCount, time);
    }

    /** The branches of `Traverse` that do not refine: the renderers are enabled or not, and
        the tile marks its staging children (a Staged tile turns Unstaged unless the count is
        0). No frame changes. */
    method Coarsen(id: nat, enabled: bool, stagingCount: int) returns (staging: int)
      requires Valid() && id < |nodes|
      modifies this
      ensures Valid() && Evolved(old(nodes), nodes) && stageTasks == old(stageTasks)
      ensures TasksFollow(old(nodes), old(stageTasks), nodes, stageTasks)
      ensures forall i :: 0 <= i < id ==> nodes[i] == old(nodes[i])
      ensures forall i :: 0 <= i < |nodes| ==> nodes[i].frame == old(nodes[i].frame)
      ensures staging - Pending(nodes) == stagingCount - Pending(old(nodes))
      ensures Count(nodes, Commited) == Count(old(nodes), Commited)
      ensures nodes[id].enabled == enabled
      ensures nodes[id].status ==
              if old(nodes[id].status) == Staged && stagingCount != 0 then Unstaged else old(nodes[id].status)
    {
      SetNode(id, nodes[id].(enabled := enabled));
      ghost var n1 := nodes;
      var _, s := MarkStagingChildren(id, stagingCount);
      staging := s;
      DemotedEvolved(n1, nodes);
      DemotedCounts(n1, nodes);
      EvolvedTransitive(old(nodes), n1, nodes);
    }

    /** The branch of `Traverse` that refines: a Staged tile is committed (stagingCount down,
        loadCount up); a committed tile is hidden and its children traversed at `time`; any
        other is shown, an Unstaged one starting to stage (stagingCount up, one stage task). */
    method Refine(id: nat, time: int, cams: seq<CamState>, diameter: ScreenDiameter,
                  loadCount: int, stagingCount: int) returns (loads: int, staging: int)
      requires Valid() && id < |nodes| && |cams| > 0
      modifies this
      decreases |nodes| - id, 3
      ensures Valid() && Stepped(old(nodes), old(stageTasks), nodes, stageTasks, time)
      ensures forall i :: 0 <= i < id ==> nodes[i] == old(nodes[i])
      ensures staging - Pending(nodes) == stagingCount - Pending(old(nodes))
      ensures loads - loadCount == Count(nodes, Commited) - Count(old(nodes), Commited)
      ensures nodes[id].frame == old(nodes[id].frame)
      ensures nodes[id].status == Advanced(old(nodes[id].status))
      ensures nodes[id].enabled == (Advanced(old(nodes[id].status)) != Commited)
      ensures Advanced(old(nodes[id].status)) == Commited ==>
                forall k :: 0 <= k < |nodes[id].children| ==> nodes[nodes[id].children[k]].frame == time
    {
      loads, staging := loadCount, stagingCount;
      if nodes[id].status == Staged {
        CommitStaged(id);
        staging, loads := staging - 1, loads + 1;
      }
      ghost var n1, t1 := nodes, stageTasks;
      assert Stepped(old(nodes), old(stageTasks), n1, t1, time);
      if nodes[id].status == Commited {
        loads, staging := Descend(id, time, cams, diameter, loads, staging);
      } else {
        staging := Show(id, staging);
      }
      SteppedTransitive(old(nodes), old(stageTasks), n1, t1, nodes, stageTasks, time);
    }

    /** A committed tile that is refined: its renderers are disabled and its children
        traversed at `time`. */
    method Descend(id: nat, time: int, cams: seq<CamState>, diameter: ScreenDiameter,
                   loadCount: int, stagingCount: int) returns (loads: int, staging: int)
      requires Valid() && id < |nodes| && nodes[id].status == Commited && |cams| > 0
      modifies this
      decreases |nodes| - id, 2
      ensures Valid() && Stepped(old(nodes), old(stageTasks), nodes, stageTasks, time)
      ensures forall i :: 0 <= i < id ==> nodes[i] == old(nodes[i])
      ensures nodes[id] == old(nodes[id]).(enabled := false)
      ensures staging - Pending(nodes) == stagingCount - Pending(old(nodes))
      ensures loads - loadCount == Count(nodes, Commited) - Count(old(nodes), Commited)
      ensures forall k :: 0 <= k < |nodes[id].children| ==> nodes[nodes[id].children[k]].frame == time
    {
      SetNode(id, nodes[id].(enabled := false));
      ghost var n1, t1 := nodes, stageTasks;
      assert Stepped(old(nodes), old(stageTasks), n1, t1, time);
      loads, staging := TraverseChildren(id, time, cams, diameter, loadCount, stagingCount);
      SteppedTransitive(old(nodes), old(stageTasks), n1, t1, nodes, stageTasks, time);
    }

    /** A refined tile that is neither staged nor committed: its renderers are enabled and,
        when Unstaged, it starts staging. */
    method Show(id: nat, stagingCount: int) returns (staging: int)
      requires Valid() && id < |nodes| && nodes[id].status != Commited && nodes[id].status != Staged
      modifies this
      ensures Valid() && Evolved(old(nodes), nodes) && TasksFollow(old(nodes), old(stageTasks), nodes, stageTasks)
      ensures nodes == old(nodes)[id := old(nodes[id]).(enabled := true, status := Advanced(old(nodes[id].status)))]
      ensures staging - Pending(nodes) == stagingCount - Pending(old(nodes))
      ensures Count(nodes, Commited) == Count(old(nodes), Commited)
    {
      staging := stagingCount;
      SetNode(id, nodes[id].(enabled := true));
      if nodes[id].status == Unstaged {
        StartStaging(id);
        staging := staging + 1;
      }
    }

    /** The children loop of `Traverse` for a committed tile: each committed child traversed in
        turn at frame `time`. */
    method TraverseChildren(id: nat, time: int, cams: seq<CamState>, diameter: ScreenDiameter,
                            loadCount: int, stagingCount: int) returns (loads: int, staging: int)
      requires Valid() && id < |nodes| && nodes[id].status == Commited && |cams| > 0
      modifies this
      decreases |nodes| - id, 1
      ensures Valid() && Stepped(old(nodes), old(stageTasks), nodes, stageTasks, time)
      ensures forall i :: 0 <= i <= id ==> nodes[i] == old(nodes[i])
      ensures staging - Pending(nodes) == stagingCount - Pending(old(nodes))
      ensures loads - loadCount == Count(nodes, Commited) - Count(old(nodes), Commited)
      ensures forall k :: 0 <= k < |nodes[id].children| ==> nodes[nodes[id].children[k]].frame == time
    {
      ghost var n0, t0 := nodes, stageTasks;
      var children := nodes[id].children;
      loads, staging := loadCount, stagingCount;
      var k := 0;
      while k < |children|
        invariant 0 <= k <= |children| && |nodes| == |n0|
        invariant Valid() && Stepped(n0, t0, nodes, stageTasks, time)
        invariant forall i :: 0 <= i <= id ==> nodes[i] == n0[i]
        invariant staging - Pending(nodes) == stagingCount - Pending(n0)
        invariant loads - loadCount == Count(nodes, Commited) - Count(n0, Commited)
        invariant forall j :: 0 <= j < k ==> nodes[children[j]].frame == time
      {
        ghost var n1, t1 := nodes, stageTasks;
        loads, staging := TraverseChild(id, k, time, cams, diameter, loads, staging);
        SteppedTransitive(n0, t0, n1, t1, nodes, stageTasks, time);
        k := k + 1;
      }
    }

    /** One turn of the children loop: the k-th committed child traversed at `time`. */
    method TraverseChild(id: nat, k: nat, time: int, cams: seq<CamState>, diameter: ScreenDiameter,
                         loadCount: int, stagingCount: int) returns (loads: int, staging: int)
      requires Valid() && id < |nodes| && k < |nodes[id].children| && |cams| > 0
      modifies this
      decreases |nodes| - id, 0
      ensures Valid() && Stepped(old(nodes), old(stageTasks), nodes, stageTasks, time)
      ensures forall i :: 0 <= i <= id ==> nodes[i] == old(nodes[i])
      ensures staging - Pending(nodes) == stagingCount - Pending(old(nodes))
      ensures loads - loadCount == Count(nodes, Commited) - Count(old(nodes), Commited)
      ensures nodes[nodes[id].children[k]].frame == time
    {
      var child := nodes[id].children[k];
      assert id < child < |nodes|;
      loads, staging := Traverse(child, time, time, cams, diameter, loadCount, stagingCount);
    }
  }
}
