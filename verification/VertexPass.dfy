/** Vertex shading in packets: the buffer it fills is the one the scalar loop fills. */
module VertexPass {

  /** The scalar and the packet entry points agree lane by lane: lane `l` of a packet at `b` is vertex `b + l`. */
  ghost predicate LanesAgree<In(!new), Out(!new)>(w: nat, scalar: (int, In) -> Out, packet: (int, seq<In>) -> seq<Out>) {
    w > 0 && forall b: int, ins: seq<In> {:trigger packet(b, ins)} | |ins| == w ::
      |packet(b, ins)| == w && forall l | 0 <= l < w :: packet(b, ins)[l] == scalar(b + l, ins[l])
  }

  /** Packets of `w` vertices; a last packet that is not full repeats its first vertex and drops the results. */
  method ShadeVertices<In(!new), Out(!new)>(inputs: seq<In>, w: nat, out: array<Out>, ghost scalar: (int, In) -> Out,
                                            packet: (int, seq<In>) -> seq<Out>)
    requires LanesAgree(w, scalar, packet) && out.Length == |inputs|
    modifies out
    ensures forall v | 0 <= v < |inputs| :: out[v] == scalar(v, inputs[v])
  {
    var v0 := 0;
    while v0 < |inputs|
      invariant 0 <= v0
      invariant forall v | 0 <= v < |inputs| && v < v0 :: out[v] == scalar(v, inputs[v])
    {
      var n := if w < |inputs| - v0 then w else |inputs| - v0;
      var soa := seq(w, l requires 0 <= l < w && v0 < |inputs| && 0 <= v0 => inputs[if l < n && v0 + l < |inputs| then v0 + l else v0]);
      var res := packet(v0, soa);
      for l := 0 to n
        invariant forall v | 0 <= v < v0 + l :: out[v] == scalar(v, inputs[v])
      {
        out[v0 + l] := res[l];
      }
      v0 := v0 + w;
    }
  }
}
