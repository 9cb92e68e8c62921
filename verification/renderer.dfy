/** `Renderer_ImplVulkan`: the frame-in-flight index and the render data that
    the draw calls of one frame accumulate and `EndFrame` submits.

    Triangles are batched: each `DrawTriangle` appends the three corners of
    the unit triangle in the given colour and three indices numbering them
    after the vertices already present, as 16-bit indices. */
module Renderer {
  import opened Wrappers

  /** Indices are `uint16_t`. */
  const IndexLimit: nat := 0x1_0000

  datatype Vec3 = Vec3(x: real, y: real, z: real)
  datatype Color = Color(r: real, g: real, b: real, a: real)
  datatype Vertex = Vertex(position: Vec3, color: Color)

  /** The corners of `RenderData::TriangleVertices`. */
  function TriangleVertices(): (t: seq<Vec3>)
    ensures |t| == 3
  {
    [Vec3(-1.0, -1.0, 0.0), Vec3(0.0, 1.0, 0.0), Vec3(1.0, -1.0, 0.0)]
  }

  datatype RenderData = RenderData(vertices: seq<Vertex>, indices: seq<nat>)

  /** `BeginFrame`: the frame index is reduced modulo the number of frames in
      flight; with no frames in flight the C++ division is undefined, which is
      the failure here. */
  function BeginFrame(maxFramesInFlight: nat, currentFrame: nat): (r: Result<nat>)
    ensures r.Success? <==> maxFramesInFlight > 0
    ensures r.Success? ==> r.value < maxFramesInFlight
    ensures r.Success? ==> exists laps: nat {:trigger laps * maxFramesInFlight} ::
      currentFrame == laps * maxFramesInFlight + r.value
  {
    if maxFramesInFlight == 0 then Failure("integer division by zero")
    else
      var laps := currentFrame / maxFramesInFlight;
      assert currentFrame == laps * maxFramesInFlight + currentFrame % maxFramesInFlight;
      Success(currentFrame % maxFramesInFlight)
  }

  /** Frames handed in one after another cycle through every slot in order. */
  lemma BeginFrameCycles(maxFramesInFlight: nat, currentFrame: nat)
    requires maxFramesInFlight > 0
    ensures var now := BeginFrame(maxFramesInFlight, currentFrame).value;
      var next := BeginFrame(maxFramesInFlight, currentFrame + 1).value;
      next == if now + 1 == maxFramesInFlight then 0 else now + 1
  {
    var q := currentFrame / maxFramesInFlight;
    var now := currentFrame % maxFramesInFlight;
    assert currentFrame == q * maxFramesInFlight + now;
    if now + 1 == maxFramesInFlight {
      assert currentFrame + 1 == (q + 1) * maxFramesInFlight + 0;
      ModOf(currentFrame + 1, maxFramesInFlight, q + 1, 0);
    } else {
      ModOf(currentFrame + 1, maxFramesInFlight, q, now + 1);
    }
  }

  lemma ModOf(x: nat, d: nat, q: nat, r: nat)
    requires d > 0 && r < d && x == q * d + r
    ensures x % d == r
  {
    var q0 := x / d;
    assert x == q0 * d + x % d;
    if q0 < q {
      MulStep(q0, q, d);
    } else if q < q0 {
      MulStep(q, q0, d);
    }
  }

  lemma MulStep(a: nat, b: nat, d: nat)
    requires a < b
    ensures a * d + d <= b * d
  {
    var c := b - a - 1;
    assert b * d == (a + 1 + c) * d == a * d + d + c * d;
  }

  /** What one triangle adds, stated declaratively: three vertices in the given
      colour and three indices following on from the vertex count. */
  function TriangleAppended(rd: RenderData, color: Color): (r: RenderData)
  {
    var base := |rd.vertices|;
    RenderData(
      rd.vertices + seq(3, j requires 0 <= j < 3 => Vertex(TriangleVertices()[j], color)),
      rd.indices + seq(3, j => (base + j) % IndexLimit))
  }

  /** `DrawTriangle`: the loop over the triangle's corners. The vertex count is
      first cast to 32 bits and each index to 16 bits; as 2^16 divides 2^32 the
      two casts together reduce modulo 2^16. The model transform goes to the
      uniform buffer, which is not part of the render data. */
  method DrawTriangle(rd: RenderData, color: Color) returns (r: RenderData)
    ensures r == TriangleAppended(rd, color)
  {
    var corners := TriangleVertices();
    var lastVertexCount := |rd.vertices|;
    var vertices := rd.vertices;
    var indices := rd.indices;
    var i := 0;
    while i < |corners|
      invariant 0 <= i <= 3
      invariant vertices == rd.vertices + seq(i, j requires 0 <= j < i => Vertex(corners[j], color))
      invariant indices == rd.indices + seq(i, j => (lastVertexCount + j) % IndexLimit)
    {
      vertices := vertices + [Vertex(corners[i], color)];
      indices := indices + [(lastVertexCount + i) % IndexLimit];
      i := i + 1;
    }
    r := RenderData(vertices, indices);
  }

  /** The vertex and index lists grow together, and every index names the
      vertex at its own position, modulo 2^16. */
  predicate Consecutive(rd: RenderData)
  {
    && |rd.vertices| == |rd.indices|
    && forall i :: 0 <= i < |rd.indices| ==> rd.indices[i] == i % IndexLimit
  }

  /** A triangle keeps the lists consecutive, adds three vertices in its
      colour and leaves the earlier ones alone. */
  lemma TriangleKeepsConsecutive(rd: RenderData, color: Color)
    requires Consecutive(rd)
    ensures var r := TriangleAppended(rd, color);
      && Consecutive(r)
      && |r.vertices| == |rd.vertices| + 3
      && r.vertices[..|rd.vertices|] == rd.vertices
      && forall j :: |rd.vertices| <= j < |r.vertices| ==> r.vertices[j].color == color
  {
    var r := TriangleAppended(rd, color);
    var base := |rd.vertices|;
    forall i | 0 <= i < |r.indices|
      ensures r.indices[i] == i % IndexLimit
    {
      if i >= base {
        assert r.indices[i] == (base + (i - base)) % IndexLimit;
      }
    }
  }

  /** `k` triangles drawn one after another. */
  function DrawTriangles(rd: RenderData, colors: seq<Color>): (r: RenderData)
    decreases |colors|
  {
    if |colors| == 0 then rd else DrawTriangles(TriangleAppended(rd, colors[0]), colors[1..])
  }

  /** After k triangles since the last reset both lists hold 3k entries and the
      indices are 0, 1, ..., 3k - 1 taken modulo 2^16; the i-th triangle's
      vertices carry the i-th colour. */
  lemma {:induction false} TrianglesNumberedInOrder(rd: RenderData, colors: seq<Color>)
    requires Consecutive(rd)
    ensures var r := DrawTriangles(rd, colors);
      && Consecutive(r)
      && |r.vertices| == |rd.vertices| + 3 * |colors|
      && r.vertices[..|rd.vertices|] == rd.vertices
      && forall t, j :: 0 <= t < |colors| && 0 <= j < 3 ==>
           r.vertices[|rd.vertices| + 3 * t + j] == Vertex(TriangleVertices()[j], colors[t])
    decreases |colors|
  {
    if |colors| > 0 {
      var next := TriangleAppended(rd, colors[0]);
      TriangleKeepsConsecutive(rd, colors[0]);
      TrianglesNumberedInOrder(next, colors[1..]);
      var r := DrawTriangles(rd, colors);
      var base := |rd.vertices|;
      assert r.vertices[..base + 3] == next.vertices by {
        assert r.vertices[..base + 3] == r.vertices[..|next.vertices|];
      }
      forall t, j | 0 <= t < |colors| && 0 <= j < 3
        ensures r.vertices[base + 3 * t + j] == Vertex(TriangleVertices()[j], colors[t])
      {
        if t == 0 {
          assert r.vertices[base + j] == r.vertices[..base + 3][base + j] == next.vertices[base + j];
        } else {
          assert colors[1..][t - 1] == colors[t];
          assert base + 3 * t + j == |next.vertices| + 3 * (t - 1) + j;
        }
      }
    }
  }

  /** The empty render data a frame starts with. */
  const Empty: RenderData := RenderData([], [])

  /** What `EndFrame` hands to the vertex and index buffers, and the render
      data it leaves behind. */
  datatype Submitted = Submitted(vertices: seq<Vertex>, indices: seq<nat>, rest: RenderData)

  /** `EndFrame`: the accumulated lists are submitted, then `Reset` clears them. */
  function EndFrame(rd: RenderData): (r: Submitted)
    ensures r.rest == Empty
    ensures r.vertices == rd.vertices && r.indices == rd.indices
  {
    Submitted(rd.vertices, rd.indices, Empty)
  }

  /** `DrawRect` has no implementation: it adds nothing to the frame. */
  function DrawRect(rd: RenderData, color: Color): (r: RenderData)
  {
    rd
  }

  /** A frame of k triangles, with rectangles anywhere in between, submits 3k
      vertices and the indices 0 .. 3k - 1 modulo 2^16, and starts the next
      frame empty. */
  lemma FrameSubmitsTriangles(colors: seq<Color>, rectColor: Color)
    ensures var r := EndFrame(DrawRect(DrawTriangles(DrawRect(Empty, rectColor), colors), rectColor));
      && |r.vertices| == |r.indices| == 3 * |colors|
      && (forall i :: 0 <= i < |r.indices| ==> r.indices[i] == i % IndexLimit)
      && r.rest == Empty
  {
    TrianglesNumberedInOrder(Empty, colors);
  }

  /** Past 21845 triangles the 16-bit indices wrap: the 65537th vertex gets
      index 0 again. */
  lemma IndicesWrap(colors: seq<Color>)
    requires |colors| == 21846
    ensures |DrawTriangles(Empty, colors).indices| == 65538 && DrawTriangles(Empty, colors).indices[IndexLimit] == 0
  {
    TrianglesNumberedInOrder(Empty, colors);
  }
}
