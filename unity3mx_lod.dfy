// `PagedLOD` of the 3MX streaming component: the same tile cycle as the 3MXB component, but a
// tile that wants its children asks the request manager for them, and only while the
// manager's queue is not full. The children arrive when the request's staging ends, which
// marks the tile Staged and puts it on the commit queue; `Commit` later makes them the tile's
// committed children. A traversal itself never commits.
module Unity3mxLod {
  import opened Culling
  import opened LodNodes
  import opened Requests

  /** `float.MaxValue`, where the nearest distance starts. */
  const FLOAT_MAX: real := 340282346638528859811704183484516925440.0

  /** `Vector3.Distance`, a square root this model leaves open. */
  type Distance = (Vector3, Vector3) -> real

  /** `Priority(distanceToCamera)` of a tile of the given depth, float arithmetic this model
      leaves open. */
  type PriorityOf = (int, real) -> real

  /** The float measures a traversal uses: a tile's screen diameter for a camera, the distance
      between two points, and a request's priority. */
  datatype Measures = Measures(diameter: ScreenDiameter, distance: Distance, priority: PriorityOf)

  /** The nearest distance from a seeing camera to the tile's sphere, `FLOAT_MAX` when none
      sees it: the `Mathf.Min` fold of `Traverse`. */
  function MinDistanceOver(s: TileBoundingSphere, cams: seq<CamState>, distance: Distance): real
  {
    if cams == [] then FLOAT_MAX
    else
      var before := MinDistanceOver(s, cams[..|cams| - 1], distance);
      var cam := cams[|cams| - 1];
      if SeenBy(s, cam) then RealMin(DistanceTo(s, distance(s.center, cam.position)), before) else before
  }

  /** The fold is the smallest distance a seeing camera has to the sphere, or `FLOAT_MAX`: never
      negative, never above `FLOAT_MAX` or any seeing camera's distance, and equal to
      `FLOAT_MAX` or to one of them. */
  lemma {:induction false} MinDistanceIsMin(s: TileBoundingSphere, cams: seq<CamState>, distance: Distance)
    ensures 0.0 <= MinDistanceOver(s, cams, distance) <= FLOAT_MAX
    ensures forall k :: 0 <= k < |cams| && SeenBy(s, cams[k]) ==>
              MinDistanceOver(s, cams, distance) <= DistanceTo(s, distance(s.center, cams[k].position))
    ensures MinDistanceOver(s, cams, distance) == FLOAT_MAX ||
            exists k :: 0 <= k < |cams| && SeenBy(s, cams[k]) &&
                        MinDistanceOver(s, cams, distance) == DistanceTo(s, distance(s.center, cams[k].position))
    decreases |cams|
  {
    if cams != [] {
      var init := cams[..|cams| - 1];
      MinDistanceIsMin(s, init, distance);
      forall k | 0 <= k < |init| ensures init[k] == cams[k] { }
    }
  }

  /** The culling loop of `Traverse`: whether a camera sees the tile, the largest screen
      diameter and the nearest distance among those that do. */
  method CullAndMeasure(s: TileBoundingSphere, cams: seq<CamState>, m: Measures)
    returns (isInside: bool, screenDiameter: real, minDistance: real)
    ensures isInside == Visible(s, cams)
    ensures screenDiameter == ScreenDiameterOver(s, cams, m.diameter)
    ensures minDistance == MinDistanceOver(s, cams, m.distance)
  {
    isInside, screenDiameter, minDistance := false, 0.0, FLOAT_MAX;
    var k := 0;
    while k < |cams|
      invariant k <= |cams|
      invariant isInside == Visible(s, cams[..k])
      invariant screenDiameter == ScreenDiameterOver(s, cams[..k], m.diameter)
      invariant minDistance == MinDistanceOver(s, cams[..k], m.distance)
    {
      var mask := IntersectPlanes(s, cams[k].planes, DEFAULT_MASK);
      assert cams[..k + 1][..k] == cams[..k];
      assert cams[..k + 1][k] == cams[k];
      if IntersectionAsWritten(mask) != Outside {
        isInside := true;
        screenDiameter := RealMax(screenDiameter, m.diameter(s, cams[k].pixelSizeVector));
        var distance := DistanceTo(s, m.distance(s.center, cams[k].position));
        minDistance := RealMin(distance, minDistance);
      } else {
        assert Visible(s, cams[..k + 1]) ==> Visible(s, cams[..k]) by {
          if Visible(s, cams[..k + 1]) {
            var j :| 0 <= j < k + 1 && SeenBy(s, cams[..k + 1][j]);
            assert cams[..k][j] == cams[..k + 1][j];
          }
        }
      }
      k := k + 1;
    }
    assert cams[..k] == cams;
  }

  /** `EnableRenderer(enabled)` on a tile: a tile without renderers is left as it is. */
  function WithRenderers(n: Node, enabled: bool): (r: Node)
    ensures r.enabled == (if n.renderers then enabled else n.enabled)
    ensures r == n.(enabled := r.enabled)
  {
    if n.renderers then n.(enabled := enabled) else n
  }

  /** From (a, qa) to (b, qb) requests were only appended, each for a tile now staging and
      with that tile's priority at its nearest seeing camera, one per tile that started
      staging; and a queue within `MAX_QUEUE_SIZE` stayed within it. */
  ghost predicate RequestsFollow(a: seq<Node>, qa: seq<Request>, b: seq<Node>, qb: seq<Request>,
                                 cams: seq<CamState>, m: Measures)
  {
    |qa| <= |qb| && qb[..|qa|] == qa &&
    (forall t :: |qa| <= t < |qb| ==>
       qb[t].node < |b| && b[qb[t].node].status == Staging &&
       qb[t].priority == m.priority(b[qb[t].node].depth, MinDistanceOver(b[qb[t].node].sphere, cams, m.distance))) &&
    |qb| - |qa| == Count(b, Staging) - Count(a, Staging) &&
    (|qa| <= MAX_QUEUE_SIZE ==> |qb| <= MAX_QUEUE_SIZE)
  }

  /** From (a, qa) to (b, qb) the tiles evolved, requests followed, and every frame number that
      changed became `time`. */
  ghost predicate Stepped(a: seq<Node>, qa: seq<Request>, b: seq<Node>, qb: seq<Request>, time: int,
                          cams: seq<CamState>, m: Measures)
  {
    Evolved(a, b) && RequestsFollow(a, qa, b, qb, cams, m) &&
    forall i :: 0 <= i < |a| && b[i].frame != a[i].frame ==> b[i].frame == time
  }

  lemma SteppedTransitive(a: seq<Node>, qa: seq<Request>, b: seq<Node>, qb: seq<Request>,
                          c: seq<Node>, qc: seq<Request>, time: int, cams: seq<CamState>, m: Measures)
    requires Stepped(a, qa, b, qb, time, cams, m) && Stepped(b, qb, c, qc, time, cams, m)
    ensures Stepped(a, qa, c, qc, time, cams, m)
  {
    EvolvedTransitive(a, b, c);
    forall t | |qa| <= t < |qc|
      ensures qc[t].node < |c| && c[qc[t].node].status == Staging &&
              qc[t].priority == m.priority(c[qc[t].node].depth, MinDistanceOver(c[qc[t].node].sphere, cams, m.distance))
    {
      if t < |qb| {
        assert qc[t] == qb[t];
      }
    }
  }

  /** Turning Staged tiles Unstaged, or changing a tile but not its status, is a step that
      queues nothing and changes no frame. */
  lemma DemotedStepped(a: seq<Node>, b: seq<Node>, q: seq<Request>, time: int, cams: seq<CamState>, m: Measures)
    requires Demoted(a, b)
    ensures Stepped(a, q, b, q, time, cams, m)
  {
    DemotedEvolved(a, b);
    DemotedCounts(a, b);
  }

  /** Enabling or disabling one tile's renderers is a step that queues nothing and changes no
      frame. */
  lemma EnabledStepped(a: seq<Node>, q: seq<Request>, id: nat, n: Node, time: int, cams: seq<CamState>, m: Measures)
    requires id < |a| && n == a[id].(enabled := n.enabled)
    ensures Stepped(a, q, a[id := n], q, time, cams, m)
  {
    CountUpdate(a, id, n, Staging);
  }

  /** An Unstaged tile starting to stage, with its request appended to a queue that is not
      full, is a step that changes no frame. */
  lemma StartedStepped(a: seq<Node>, q: seq<Request>, id: nat, r: Request, time: int, cams: seq<CamState>, m: Measures)
    requires id < |a| && a[id].status == Unstaged && |q| < MAX_QUEUE_SIZE
    requires r == Request(id, m.priority(a[id].depth, MinDistanceOver(a[id].sphere, cams, m.distance)))
    ensures Stepped(a, q, a[id := a[id].(status := Staging)], q + [r], time, cams, m)
  {
    CountUpdate(a, id, a[id].(status := Staging), Staging);
  }

  /** A traversal's own frame update followed by a step at `time` that leaves that frame. */
  lemma FrameThenStep(a: seq<Node>, qa: seq<Request>, b: seq<Node>, c: seq<Node>, qc: seq<Request>,
                      id: nat, frameCount: int, time: int, cams: seq<CamState>, m: Measures)
    requires id < |a| && b == a[id := a[id].(frame := frameCount)]
    requires Stepped(b, qa, c, qc, time, cams, m) && c[id].frame == b[id].frame
    ensures Evolved(a, c) && RequestsFollow(a, qa, c, qc, cams, m)
    ensures forall i :: 0 <= i < |a| && i != id && c[i].frame != a[i].frame ==> c[i].frame == time
  {
    CountUpdate(a, id, b[id], Staging);
  }

  class LodTree {
    /** The tiles. */
    var nodes: seq<Node>
    /** The component's `CommitingQueue`: the tiles whose staging finished, in order. */
    var commitQueue: seq<nat>
    /** `RequestManager.Current`. */
    const manager: RequestManager

    ghost predicate Valid()
      reads this
    {
      Ordered(nodes) && forall t :: 0 <= t < |commitQueue| ==> commitQueue[t] < |nodes|
    }

    /** `PagedLOD(name, dir, parent transform, depth)`: the component's root tile, without
        renderers. */
    constructor (depth: int, sphere: TileBoundingSphere, maxScreenDiameter: real, files: seq<string>,
                 manager: RequestManager)
      ensures Valid() && this.manager == manager
      ensures nodes == [NewNode(depth, sphere, maxScreenDiameter, files, false)] && commitQueue == []
    {
      nodes := [NewNode(depth, sphere, maxScreenDiameter, files, false)];
      commitQueue := [];
      this.manager := manager;
    }

    /** `new PagedLOD(name, dir, Parent)` followed by `Parent.CommitedChildren.Add`, as the
        loader does for each node of a tile file: an Unstaged child one level deeper, added
        last, with renderers when the loader gave it some. */
    method AddChild(parent: nat, sphere: TileBoundingSphere, maxScreenDiameter: real, files: seq<string>,
                    renderers: bool) returns (id: nat)
      requires Valid() && parent < |nodes|
      modifies this
      ensures Valid() && id == |old(nodes)| && commitQueue == old(commitQueue)
      ensures nodes == old(nodes)[parent := old(nodes[parent]).(children := old(nodes[parent].children) + [id])] +
                       [NewNode(old(nodes[parent].depth) + 1, sphere, maxScreenDiameter, files, renderers)]
      ensures nodes[id].depth == nodes[parent].depth + 1 && nodes[id].status == Unstaged
      ensures Count(nodes, Staging) == Count(old(nodes), Staging)
    {
      id := |nodes|;
      var p := nodes[parent];
      var before := nodes[parent := p.(children := p.children + [id])];
      CountUpdate(nodes, parent, p.(children := p.children + [id]), Staging);
      nodes := before + [NewNode(p.depth + 1, sphere, maxScreenDiameter, files, renderers)];
      assert nodes[..|nodes| - 1] == before;
    }

    /** The `.3mx` branch of `LoadStreamCo`: one child for the first layer, never culled (its
        sphere has radius 1e30 at the origin), always wanting its children (a maximum screen
        diameter of 0), whose only child file is the layer's root. */
    method AddLayerRoot(parent: nat, root: string) returns (id: nat)
      requires Valid() && parent < |nodes|
      modifies this
      ensures Valid() && id == |old(nodes)| && |nodes| == id + 1 && commitQueue == old(commitQueue)
      ensures nodes[parent].children == old(nodes[parent].children) + [id]
      ensures nodes[id] == NewNode(old(nodes[parent].depth) + 1, TileBoundingSphere(Vector3(0.0, 0.0, 0.0), 1e30), 0.0, [root], false)
      ensures nodes[id].maxScreenDiameter == 0.0 && nodes[id].sphere.radius == 1e30 && nodes[id].childrenFiles == [root]
    {
      id := AddChild(parent, TileBoundingSphere(Vector3(0.0, 0.0, 0.0), 1e30), 0.0, [root], false);
    }

    /** `UnloadChildren`: the committed children are dropped and the tile is Unstaged again. */
    method UnloadChildren(id: nat)
      requires Valid() && id < |nodes|
      modifies this
      ensures Valid() && commitQueue == old(commitQueue)
      ensures nodes == old(nodes)[id := old(nodes[id]).(children := [], status := Unstaged)]
    {
      nodes := nodes[id := nodes[id].(children := [], status := Unstaged)];
    }

    /** The staging-finished callback: the tile is Staged and goes on the commit queue. */
    method StagingFinished(id: nat)
      requires Valid() && id < |nodes|
      modifies this
      ensures Valid()
      ensures nodes == old(nodes)[id := old(nodes[id]).(status := Staged)]
      ensures commitQueue == old(commitQueue) + [id]
    {
      nodes := nodes[id := nodes[id].(status := Staged)];
      commitQueue := commitQueue + [id];
    }

    /** `Commit`: a Staged tile becomes Commited and the answer is true; any other tile is
        left as it is and the answer is false. */
    method Commit(id: nat) returns (ok: bool)
      requires Valid() && id < |nodes|
      modifies this
      ensures Valid() && commitQueue == old(commitQueue)
      ensures ok == (old(nodes[id].status) == Staged)
      ensures ok ==> nodes == old(nodes)[id := old(nodes[id]).(status := Commited)]
      ensures !ok ==> nodes == old(nodes)
    {
      if nodes[id].status == Staged {
        nodes := nodes[id := nodes[id].(status := Commited)];
        return true;
      }
      return false;
    }

    /** `MarkStagingChildren`: false for an Unstaged tile, true for a Staging one; a Staged
        tile turns Unstaged; a committed tile asks each child that is not itself staging. The
        answer is whether staging goes on below the tile. */
    method MarkStagingChildren(id: nat) returns (hasStagingChild: bool)
      requires Valid() && id < |nodes|
      modifies this
      decreases |nodes| - id, 1
      ensures Valid() && Demoted(old(nodes), nodes) && commitQueue == old(commitQueue)
      ensures forall i :: 0 <= i < id ==> nodes[i] == old(nodes[i])
      ensures old(nodes[id].status) != Staged ==> nodes[id] == old(nodes[id])
      ensures old(nodes[id].status) == Unstaged || old(nodes[id].status) == Staging ==> nodes == old(nodes)
      ensures old(nodes[id].status) == Staged ==> nodes == old(nodes)[id := old(nodes[id]).(status := Unstaged)]
      ensures hasStagingChild == HasStaging(old(nodes), id)
    {
      var n := nodes[id];
      if n.status == Unstaged {
        return false;
      } else if n.status == Staging {
        return true;
      } else if n.status == Staged {
        nodes := nodes[id := n.(status := Unstaged)];
        return false;
      }
      hasStagingChild := false;
      ghost var n0 := nodes;
      var k := 0;
      while k < |n.children|
        invariant 0 <= k <= |n.children| && |nodes| == |n0|
        invariant Valid() && Demoted(n0, nodes) && commitQueue == old(commitQueue)
        invariant forall i :: 0 <= i <= id ==> nodes[i] == n0[i]
        invariant hasStagingChild <==> exists j :: 0 <= j < k && HasStaging(n0, n.children[j])
      {
        ghost var before := nodes;
        DemotedKeepsHasStaging(n0, before, n.children[k]);
        hasStagingChild := MarkChild(id, k, hasStagingChild);
        DemotedTransitive(n0, before, nodes);
        k := k + 1;
      }
      assert HasStaging(n0, id) <==> exists j :: 0 <= j < |n.children| && HasStaging(n0, n.children[j]);
    }

    /** One turn of the children loop of `MarkStagingChildren`. */
    method MarkChild(id: nat, k: nat, hasStagingChild: bool) returns (has: bool)
      requires Valid() && id < |nodes| && k < |nodes[id].children|
      modifies this
      decreases |nodes| - id, 0
      ensures Valid() && Demoted(old(nodes), nodes) && commitQueue == old(commitQueue)
      ensures forall i :: 0 <= i <= id ==> nodes[i] == old(nodes[i])
      ensures has == (hasStagingChild || HasStaging(old(nodes), old(nodes[id].children[k])))
    {
      var child := nodes[id].children[k];
      assert id < child < |nodes|;
      if nodes[child].status == Staging {
        has := true;
      } else {
        var b := MarkStagingChildren(child);
        has := hasStagingChild || b;
      }
    }
    /** `Traverse(frameCount, camStates)`. With no camera nothing changes. Otherwise the tile
        records the frame and is culled: a tile no camera sees has its renderers disabled and
        marks its staging children; a tile too small on screen or without child files has them
        enabled and marks them; otherwise a committed tile has them disabled and its children
        are traversed at `time`, a staged tile has them enabled, and any other has them enabled,
        an Unstaged one starting to stage with one request, if the manager's queue is not
        full. Requests carry the tile's priority at its nearest seeing camera. */
    method Traverse(id: nat, frameCount: int, time: int, cams: seq<CamState>, m: Measures)
      requires Valid() && id < |nodes|
      modifies this, manager
      decreases |nodes| - id, 5
      ensures Valid() && Evolved(old(nodes), nodes) && commitQueue == old(commitQueue)
      ensures RequestsFollow(old(nodes), old(manager.queue), nodes, manager.queue, cams, m)
      ensures manager.currentRequests == old(manager.currentRequests)
      ensures manager.started == old(manager.started) && manager.running == old(manager.running)
      ensures forall i :: 0 <= i < id ==> nodes[i] == old(nodes[i])
      ensures forall i :: 0 <= i < |nodes| && i != id && nodes[i].frame != old(nodes[i].frame) ==> nodes[i].frame == time
      ensures |cams| == 0 ==> nodes == old(nodes) && manager.queue == old(manager.queue)
      ensures |cams| > 0 ==> nodes[id].frame == frameCount
      ensures |cams| > 0 ==>
                nodes[id].enabled ==
                (if !old(nodes[id].renderers) then old(nodes[id].enabled)
                 else Visible(old(nodes[id].sphere), cams) &&
                      !(Refines(old(nodes[id]), cams, m.diameter) && old(nodes[id].status) == Commited))
      ensures |cams| > 0 && !Refines(old(nodes[id]), cams, m.diameter) ==>
                nodes[id].status == (if old(nodes[id].status) == Staged then Unstaged else old(nodes[id].status))
      ensures |cams| > 0 && Refines(old(nodes[id]), cams, m.diameter) ==>
                nodes[id].status ==
                (if old(nodes[id].status) == Unstaged && |old(manager.queue)| < MAX_QUEUE_SIZE then Staging
                 else old(nodes[id].status))
      ensures |cams| > 0 && Refines(old(nodes[id]), cams, m.diameter) && old(nodes[id].status) == Commited ==>
                forall k :: 0 <= k < |nodes[id].children| ==> nodes[nodes[id].children[k]].frame == time
    {
      if |cams| == 0 {
        return;
      }
      Visit(id, frameCount, time, cams, m);
    }

    /** `Traverse` with at least one camera. */
    method Visit(id: nat, frameCount: int, time: int, cams: seq<CamState>, m: Measures)
      requires Valid() && id < |nodes| && |cams| > 0
      modifies this, manager
      decreases |nodes| - id, 4
      ensures Valid() && Evolved(old(nodes), nodes) && commitQueue == old(commitQueue)
      ensures RequestsFollow(old(nodes), old(manager.queue), nodes, manager.queue, cams, m)
      ensures manager.currentRequests == old(manager.currentRequests)
      ensures manager.started == old(manager.started) && manager.running == old(manager.running)
      ensures forall i :: 0 <= i < id ==> nodes[i] == old(nodes[i])
      ensures forall i :: 0 <= i < |nodes| && i != id && nodes[i].frame != old(nodes[i].frame) ==> nodes[i].frame == time
      ensures nodes[id].frame == frameCount
      ensures nodes[id].enabled ==
              (if !old(nodes[id].renderers) then old(nodes[id].enabled)
               else Visible(old(nodes[id].sphere), cams) &&
                    !(Refines(old(nodes[id]), cams, m.diameter) && old(nodes[id].status) == Commited))
      ensures !Refines(old(nodes[id]), cams, m.diameter) ==>
                nodes[id].status == (if old(nodes[id].status) == Staged then Unstaged else old(nodes[id].status))
      ensures Refines(old(nodes[id]), cams, m.diameter) ==>
                nodes[id].status ==
                (if old(nodes[id].status) == Unstaged && |old(manager.queue)| < MAX_QUEUE_SIZE then Staging
                 else old(nodes[id].status))
      ensures Refines(old(nodes[id]), cams, m.diameter) && old(nodes[id].status) == Commited ==>
                forall k :: 0 <= k < |nodes[id].children| ==> nodes[nodes[id].children[k]].frame == time
    {
      var n := nodes[id];
      nodes := nodes[id := n.(frame := frameCount)];
      ghost var n1, q1 := nodes, manager.queue;
      var isInside, screenDiameter, minDistance := CullAndMeasure(n.sphere, cams, m);
      if !isInside {
        Coarsen(id, false, time, cams, m);
      } else if screenDiameter < n.maxScreenDiameter || |n.childrenFiles| == 0 {
        Coarsen(id, true, time, cams, m);
      } else {
        Refine(id, time, cams, m, minDistance);
      }
      FrameThenStep(old(nodes), old(manager.queue), n1, nodes, manager.queue, id, frameCount, time, cams, m);
    }

    /** The branches of `Traverse` that do not refine: the renderers are enabled or not, and
        the tile marks its staging children. */
    method Coarsen(id: nat, enabled: bool, ghost time: int, ghost cams: seq<CamState>, ghost m: Measures)
      requires Valid() && id < |nodes|
      modifies this
      ensures Valid() && Stepped(old(nodes), manager.queue, nodes, manager.queue, time, cams, m)
      ensures commitQueue == old(commitQueue)
      ensures forall i :: 0 <= i < id ==> nodes[i] == old(nodes[i])
      ensures nodes[id].frame == old(nodes[id].frame)
      ensures nodes[id].enabled == (if old(nodes[id].renderers) then enabled else old(nodes[id].enabled))
      ensures nodes[id].status == if old(nodes[id].status) == Staged then Unstaged else old(nodes[id].status)
    {
      EnabledStepped(nodes, manager.queue, id, WithRenderers(nodes[id], enabled), time, cams, m);
      nodes := nodes[id := WithRenderers(nodes[id], enabled)];
      ghost var n1 := nodes;
      var _ := MarkStagingChildren(id);
      DemotedStepped(n1, nodes, manager.queue, time, cams, m);
      SteppedTransitive(old(nodes), manager.queue, n1, manager.queue, nodes, manager.queue, time, cams, m);
    }

    /** The branch of `Traverse` that refines. */
    method Refine(id: nat, time: int, cams: seq<CamState>, m: Measures, minDistance: real)
      requires Valid() && id < |nodes| && |cams| > 0
      requires minDistance == MinDistanceOver(nodes[id].sphere, cams, m.distance)
      modifies this, manager
      decreases |nodes| - id, 3
      ensures Valid() && Stepped(old(nodes), old(manager.queue), nodes, manager.queue, time, cams, m)
      ensures commitQueue == old(commitQueue)
      ensures manager.currentRequests == old(manager.currentRequests)
      ensures manager.started == old(manager.started) && manager.running == old(manager.running)
      ensures forall i :: 0 <= i < id ==> nodes[i] == old(nodes[i])
      ensures nodes[id].frame == old(nodes[id].frame)
      ensures nodes[id].enabled ==
              (if old(nodes[id].renderers) then old(nodes[id].status) != Commited else old(nodes[id].enabled))
      ensures nodes[id].status ==
              (if old(nodes[id].status) == Unstaged && |old(manager.queue)| < MAX_QUEUE_SIZE then Staging
               else old(nodes[id].status))
      ensures old(nodes[id].status) == Commited ==>
                forall k :: 0 <= k < |nodes[id].children| ==> nodes[nodes[id].children[k]].frame == time
    {
      if nodes[id].status == Commited {
        Descend(id, time, cams, m);
      } else {
        Show(id, time, cams, m, minDistance);
      }
    }

    /** A committed tile that is refined: its renderers are disabled and its children
        traversed at `time`. */
    method Descend(id: nat, time: int, cams: seq<CamState>, m: Measures)
      requires Valid() && id < |nodes| && nodes[id].status == Commited && |cams| > 0
      modifies this, manager
      decreases |nodes| - id, 2
      ensures Valid() && Stepped(old(nodes), old(manager.queue), nodes, manager.queue, time, cams, m)
      ensures commitQueue == old(commitQueue)
      ensures manager.currentRequests == old(manager.currentRequests)
      ensures manager.started == old(manager.started) && manager.running == old(manager.running)
      ensures forall i :: 0 <= i < id ==> nodes[i] == old(nodes[i])
      ensures nodes[id] == WithRenderers(old(nodes[id]), false)
      ensures forall k :: 0 <= k < |nodes[id].children| ==> nodes[nodes[id].children[k]].frame == time
    {
      EnabledStepped(nodes, manager.queue, id, WithRenderers(nodes[id], false), time, cams, m);
      nodes := nodes[id := WithRenderers(nodes[id], false)];
      ghost var n1, q1 := nodes, manager.queue;
      TraverseChildren(id, time, cams, m);
      SteppedTransitive(old(nodes), old(manager.queue), n1, q1, nodes, manager.queue, time, cams, m);
    }

    /** A refined tile that is not committed: its renderers are enabled and, when Unstaged and
        the manager's queue is not full, it starts staging with one request. */
    method Show(id: nat, ghost time: int, cams: seq<CamState>, m: Measures, minDistance: real)
      requires Valid() && id < |nodes| && nodes[id].status != Commited
      requires minDistance == MinDistanceOver(nodes[id].sphere, cams, m.distance)
      modifies this, manager
      ensures Valid() && Stepped(old(nodes), old(manager.queue), nodes, manager.queue, time, cams, m)
      ensures commitQueue == old(commitQueue)
      ensures manager.currentRequests == old(manager.currentRequests)
      ensures manager.started == old(manager.started) && manager.running == old(manager.running)
      ensures nodes == old(nodes)[id := WithRenderers(old(nodes[id]), true).(status := nodes[id].status)]
      ensures nodes[id].status ==
              (if old(nodes[id].status) == Unstaged && |old(manager.queue)| < MAX_QUEUE_SIZE then Staging
               else old(nodes[id].status))
      ensures manager.queue ==
              if nodes[id].status != old(nodes[id].status)
              then old(manager.queue) + [Request(id, m.priority(old(nodes[id].depth), minDistance))]
              else old(manager.queue)
    {
      var n := WithRenderers(nodes[id], true);
      EnabledStepped(nodes, manager.queue, id, n, time, cams, m);
      nodes := nodes[id := n];
      if n.status == Unstaged && !manager.Full() {
        ghost var n1, q1 := nodes, manager.queue;
        var request := Request(id, m.priority(n.depth, minDistance));
        StartedStepped(nodes, manager.queue, id, request, time, cams, m);
        nodes := nodes[id := n.(status := Staging)];
        manager.EnqueRequest(request);
        SteppedTransitive(old(nodes), old(manager.queue), n1, q1, nodes, manager.queue, time, cams, m);
      }
    }

    /** The children loop of `Traverse` for a committed tile: each committed child traversed in
        turn at frame `time`. */
    method TraverseChildren(id: nat, time: int, cams: seq<CamState>, m: Measures)
      requires Valid() && id < |nodes| && nodes[id].status == Commited && |cams| > 0
      modifies this, manager
      decreases |nodes| - id, 1
      ensures Valid() && Stepped(old(nodes), old(manager.queue), nodes, manager.queue, time, cams, m)
      ensures commitQueue == old(commitQueue)
      ensures manager.currentRequests == old(manager.currentRequests)
      ensures manager.started == old(manager.started) && manager.running == old(manager.running)
      ensures forall i :: 0 <= i <= id ==> nodes[i] == old(nodes[i])
      ensures forall k :: 0 <= k < |nodes[id].children| ==> nodes[nodes[id].children[k]].frame == time
    {
      ghost var n0, q0 := nodes, manager.queue;
      var children := nodes[id].children;
      var k := 0;
      while k < |children|
        invariant 0 <= k <= |children| && |nodes| == |n0|
        invariant Valid() && Stepped(n0, q0, nodes, manager.queue, time, cams, m)
        invariant commitQueue == old(commitQueue)
        invariant manager.currentRequests == old(manager.currentRequests)
        invariant manager.started == old(manager.started) && manager.running == old(manager.running)
        invariant forall i :: 0 <= i <= id ==> nodes[i] == n0[i]
        invariant forall j :: 0 <= j < k ==> nodes[children[j]].frame == time
      {
        ghost var n1, q1 := nodes, manager.queue;
        TraverseChild(id, k, time, cams, m);
        SteppedTransitive(n0, q0, n1, q1, nodes, manager.queue, time, cams, m);
        k := k + 1;
      }
    }

    /** One turn of the children loop: the k-th committed child traversed at `time`. */
    method TraverseChild(id: nat, k: nat, time: int, cams: seq<CamState>, m: Measures)
      requires Valid() && id < |nodes| && k < |nodes[id].children| && |cams| > 0
      modifies this, manager
      decreases |nodes| - id, 0
      ensures Valid() && Stepped(old(nodes), old(manager.queue), nodes, manager.queue, time, cams, m)
      ensures commitQueue == old(commitQueue)
      ensures manager.currentRequests == old(manager.currentRequests)
      ensures manager.started == old(manager.started) && manager.running == old(manager.running)
      ensures forall i :: 0 <= i <= id ==> nodes[i] == old(nodes[i])
      ensures nodes[nodes[id].children[k]].frame == time
    {
      var child := nodes[id].children[k];
      assert id < child < |nodes|;
      Traverse(child, time, time, cams, m);
    }
  }
}
