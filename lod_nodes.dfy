// The tiles of a paged level-of-detail tree, as both streaming components keep them. Each
// `PagedLOD` object is a node of an arena here, named by its position; a node's committed
// children come after it, so a walk from a node down its children ends. A traversal changes
// only the status, the frame number and the renderers of nodes, never the tree's shape.
module LodNodes {
  import opened Culling

  /** `ChildrenStatus`: children not requested, being staged, staged and waiting to be
      committed, committed. */
  datatype ChildrenStatus = Unstaged | Staging | Staged | Commited

  /** `Vector4`, the pixel size vector of a camera. */
  datatype Vector4 = Vector4(x: real, y: real, z: real, w: real)

  /** `CamState`: a camera's pixel size vector, its frustum planes and its position. */
  datatype CamState = CamState(pixelSizeVector: Vector4, planes: seq<Plane>, position: Vector3)

  /** `TileBoundingSphere.ScreenDiameter(pixelSizeVector)`, float arithmetic this model leaves
      open. */
  type ScreenDiameter = (TileBoundingSphere, Vector4) -> real

  /** A tile: the status of its children, the ids of its committed children, the files its
      children are loaded from, the frame of its last traversal, its depth, its bounding
      sphere, the screen diameter from which its children are wanted, whether its renderers
      are enabled, and whether it has renderers to enable. */
  datatype Node = Node(status: ChildrenStatus, children: seq<nat>, childrenFiles: seq<string>,
                       frame: int, depth: int, sphere: TileBoundingSphere, maxScreenDiameter: real,
                       enabled: bool, renderers: bool)

  /** A new tile, as both `PagedLOD` constructors make it: Unstaged, no committed children,
      never traversed. */
  function NewNode(depth: int, sphere: TileBoundingSphere, maxScreenDiameter: real, files: seq<string>,
                   renderers: bool): (n: Node)
    ensures n.status == Unstaged && n.children == [] && n.frame == -1 && n.depth == depth
  {
    Node(Unstaged, [], files, -1, depth, sphere, maxScreenDiameter, false, renderers)
  }

  /** Every committed child of a node comes after it in the arena. */
  ghost predicate Ordered(nodes: seq<Node>)
  {
    forall i, k :: 0 <= i < |nodes| && 0 <= k < |nodes[i].children| ==> i < nodes[i].children[k] < |nodes|
  }

  // ---------------------------------------------------------------------
  // Counting tiles by status

  /** How many tiles have status s. */
  function Count(nodes: seq<Node>, s: ChildrenStatus): (c: nat)
    ensures c <= |nodes|
  {
    if nodes == [] then 0
    else Count(nodes[..|nodes| - 1], s) + (if nodes[|nodes| - 1].status == s then 1 else 0)
  }

  /** The tiles whose children are being staged or are staged: those the 3MXB component's
      `stagingCount` counts. */
  function Pending(nodes: seq<Node>): nat
  {
    Count(nodes, Staging) + Count(nodes, Staged)
  }

  /** Replacing one tile changes each count by what the old and the new tile contribute. */
  lemma {:induction false} CountUpdate(nodes: seq<Node>, i: nat, n: Node, s: ChildrenStatus)
    requires i < |nodes|
    ensures Count(nodes[i := n], s) ==
            Count(nodes, s) - (if nodes[i].status == s then 1 else 0) + (if n.status == s then 1 else 0)
    decreases |nodes|
  {
    var last := |nodes| - 1;
    if i == last {
      assert nodes[i := n][..last] == nodes[..last];
    } else {
      assert nodes[i := n][..last] == nodes[..last][i := n];
      CountUpdate(nodes[..last], i, n, s);
    }
  }

  /** A tile with status s is counted. */
  lemma {:induction false} CountPositive(nodes: seq<Node>, i: nat)
    requires i < |nodes|
    ensures Count(nodes, nodes[i].status) >= 1
    decreases |nodes|
  {
    var last := |nodes| - 1;
    if i < last {
      CountPositive(nodes[..last], i);
    }
  }

  // ---------------------------------------------------------------------
  // Staging below a tile

  /** The tile's children are being staged, or it is committed and this holds of one of its
      committed children: what `MarkStagingChildren` looks for. */
  predicate HasStaging(nodes: seq<Node>, id: nat)
    decreases |nodes| - id
  {
    id < |nodes| &&
    (nodes[id].status == Staging ||
     (nodes[id].status == Commited &&
      exists k :: 0 <= k < |nodes[id].children| && id < nodes[id].children[k] < |nodes| &&
                  HasStaging(nodes, nodes[id].children[k])))
  }

  /** A tile with staging below it means some tile of the arena is staging. */
  lemma {:induction false} HasStagingCounted(nodes: seq<Node>, id: nat)
    requires HasStaging(nodes, id)
    ensures Count(nodes, Staging) >= 1
    decreases |nodes| - id
  {
    if nodes[id].status == Staging {
      CountPositive(nodes, id);
    } else {
      var k :| 0 <= k < |nodes[id].children| && id < nodes[id].children[k] < |nodes| &&
               HasStaging(nodes, nodes[id].children[k]);
      HasStagingCounted(nodes, nodes[id].children[k]);
    }
  }

  /** b is a with some Staged tiles turned Unstaged and nothing else changed. */
  ghost predicate Demoted(a: seq<Node>, b: seq<Node>)
  {
    |a| == |b| &&
    forall i :: 0 <= i < |a| ==> b[i] == a[i] || (a[i].status == Staged && b[i] == a[i].(status := Unstaged))
  }

  lemma DemotedTransitive(a: seq<Node>, b: seq<Node>, c: seq<Node>)
    requires Demoted(a, b) && Demoted(b, c)
    ensures Demoted(a, c)
  {
  }

  /** Turning Staged tiles Unstaged leaves the numbers of staging and of committed tiles. */
  lemma {:induction false} DemotedCounts(a: seq<Node>, b: seq<Node>)
    requires Demoted(a, b)
    ensures Count(a, Staging) == Count(b, Staging) && Count(a, Commited) == Count(b, Commited)
    decreases |a|
  {
    if a != [] {
      DemotedCounts(a[..|a| - 1], b[..|b| - 1]);
    }
  }

  /** Turning Staged tiles Unstaged does not change where staging is found: neither status is
      one the search stops at or passes through. */
  lemma {:induction false} DemotedKeepsHasStaging(a: seq<Node>, b: seq<Node>, id: nat)
    requires Demoted(a, b)
    ensures HasStaging(a, id) == HasStaging(b, id)
    decreases |a| - id
  {
    if id < |a| {
      forall k | 0 <= k < |a[id].children| && id < a[id].children[k] < |a|
        ensures HasStaging(a, a[id].children[k]) == HasStaging(b, b[id].children[k])
      {
        DemotedKeepsHasStaging(a, b, a[id].children[k]);
      }
    }
  }

  // ---------------------------------------------------------------------
  // What a traversal may change

  /** b is a where tiles may have a new frame number, renderer state or status, and the
      status has moved along the staging cycle, one or more steps: Unstaged to Staging, Staged
      to Unstaged (and on to Staging) or to Commited. A Staging tile stays Staging: only its
      staging task ends that. */
  ghost predicate Evolved(a: seq<Node>, b: seq<Node>)
  {
    |a| == |b| &&
    forall i :: 0 <= i < |a| ==>
      b[i] == a[i].(status := b[i].status, frame := b[i].frame, enabled := b[i].enabled) &&
      (b[i].status == a[i].status ||
       (a[i].status == Unstaged && b[i].status == Staging) ||
       (a[i].status == Staged && b[i].status != Staged))
  }

  lemma EvolvedTransitive(a: seq<Node>, b: seq<Node>, c: seq<Node>)
    requires Evolved(a, b) && Evolved(b, c)
    ensures Evolved(a, c)
  {
  }

  lemma DemotedEvolved(a: seq<Node>, b: seq<Node>)
    requires Demoted(a, b)
    ensures Evolved(a, b)
  {
  }

  /** A traversal keeps the tree ordered: it does not touch the children lists. */
  lemma EvolvedOrdered(a: seq<Node>, b: seq<Node>)
    requires Evolved(a, b) && Ordered(a)
    ensures Ordered(b)
  {
    forall i, k | 0 <= i < |b| && 0 <= k < |b[i].children|
      ensures i < b[i].children[k] < |b|
    {
      assert b[i].children == a[i].children;
    }
  }

  // ---------------------------------------------------------------------
  // Culling a tile against the cameras

  /** The camera sees the tile: its bounding sphere is not outside the camera's frustum, as
      `IntersectPlanes` from the default mask finds. */
  predicate SeenBy(s: TileBoundingSphere, cam: CamState)
  {
    IntersectionAsWritten(Clipped(s, cam.planes, DEFAULT_MASK)) != Outside
  }

  /** Some camera sees the tile. */
  predicate Visible(s: TileBoundingSphere, cams: seq<CamState>)
  {
    exists k :: 0 <= k < |cams| && SeenBy(s, cams[k])
  }

  function RealMax(a: real, b: real): real
  {
    if a >= b then a else b
  }

  function RealMin(a: real, b: real): real
  {
    if a <= b then a else b
  }

  /** The largest screen diameter of the tile over the cameras that see it, 0 when none does:
      the `Mathf.Max` fold of `Traverse`. */
  function ScreenDiameterOver(s: TileBoundingSphere, cams: seq<CamState>, diameter: ScreenDiameter): real
  {
    if cams == [] then 0.0
    else
      var before := ScreenDiameterOver(s, cams[..|cams| - 1], diameter);
      var cam := cams[|cams| - 1];
      if SeenBy(s, cam) then RealMax(before, diameter(s, cam.pixelSizeVector)) else before
  }

  /** The fold is the largest diameter a seeing camera reports, or 0: never smaller than 0 or
      than any seeing camera's diameter, and equal to 0 or to one of them. */
  lemma {:induction false} ScreenDiameterIsMax(s: TileBoundingSphere, cams: seq<CamState>, diameter: ScreenDiameter)
    ensures ScreenDiameterOver(s, cams, diameter) >= 0.0
    ensures forall k :: 0 <= k < |cams| && SeenBy(s, cams[k]) ==>
              ScreenDiameterOver(s, cams, diameter) >= diameter(s, cams[k].pixelSizeVector)
    ensures ScreenDiameterOver(s, cams, diameter) == 0.0 ||
            exists k :: 0 <= k < |cams| && SeenBy(s, cams[k]) &&
                        ScreenDiameterOver(s, cams, diameter) == diameter(s, cams[k].pixelSizeVector)
    decreases |cams|
  {
    if cams != [] {
      var init := cams[..|cams| - 1];
      ScreenDiameterIsMax(s, init, diameter);
      forall k | 0 <= k < |init| ensures init[k] == cams[k] { }
    }
  }

  /** The tile is visible and wants its children: a camera sees it, the largest screen
      diameter reaches `MaxScreenDiameter`, and it has child files. */
  predicate Refines(n: Node, cams: seq<CamState>, diameter: ScreenDiameter)
  {
    Visible(n.sphere, cams) &&
    !(ScreenDiameterOver(n.sphere, cams, diameter) < n.maxScreenDiameter || |n.childrenFiles| == 0)
  }

  /** The culling loop of `Traverse`: whether a camera sees the tile, and the largest screen
      diameter among those that do. */
  method Cull(s: TileBoundingSphere, cams: seq<CamState>, diameter: ScreenDiameter)
    returns (isInside: bool, screenDiameter: real)
    ensures isInside == Visible(s, cams)
    ensures screenDiameter == ScreenDiameterOver(s, cams, diameter)
  {
    isInside, screenDiameter := false, 0.0;
    var k := 0;
    while k < |cams|
      invariant k <= |cams|
      invariant isInside == Visible(s, cams[..k])
      invariant screenDiameter == ScreenDiameterOver(s, cams[..k], diameter)
    {
      var mask := IntersectPlanes(s, cams[k].planes, DEFAULT_MASK);
      assert cams[..k + 1][..k] == cams[..k];
      if IntersectionAsWritten(mask) != Outside {
        isInside := true;
        screenDiameter := RealMax(screenDiameter, diameter(s, cams[k].pixelSizeVector));
        assert cams[..k + 1][k] == cams[k];
      } else {
        assert !SeenBy(s, cams[..k + 1][k]);
        assert Visible(s, cams[..k + 1]) ==> Visible(s, cams[..k]) by {
          if Visible(s, cams[..k + 1]) {
            var j :| 0 <= j < k + 1 && SeenBy(s, cams[..k + 1][j]);
            assert cams[..k][j] == cams[..k + 1][j];
          }
        }
      }
      k := k + 1;
    }
    assert cams[..k] == cams;
  }
}
