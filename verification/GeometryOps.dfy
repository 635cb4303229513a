// The resolved VDP1 operations that the geometry interpolation works on, and
// the pure comparisons between two of them.
module GeometryOps {

  const INT64_MAX: int := 0x7FFF_FFFF_FFFF_FFFF
  const VDP1_QUAD: int := 1

  // A presentation coordinate as read through `geometry_xy`. The reals stand
  // for the finite floats; rounding is not modelled.
  datatype Num = Finite(value: real) | NonFinite

  type NativeXY = s: seq<int> | |s| == 8 witness [0, 0, 0, 0, 0, 0, 0, 0]
  type PresentedXY = s: seq<Num> | |s| == 8
    witness [NonFinite, NonFinite, NonFinite, NonFinite, NonFinite, NonFinite, NonFinite, NonFinite]

  // Bit 31 of `flip` says how the eight coordinate words are to be read, so
  // that bit and those words are one value here.
  datatype Position = Native(xy: NativeXY) | Presented(at: PresentedXY)

  // The fields that identify the drawn material. `flags` is what is left of
  // `flip` once the type bits, the seam bits and bit 31 are taken out.
  datatype Material = Material(textured: int, chr: int, tw: int, th: int, colr: int,
                               pmod: int, flat: int, drawType: int, flags: int)

  // `seams` is the set of edges k whose coverage bit 27+k is set in `flip`;
  // `rest` stands for the fields that are only ever copied.
  datatype Op = Op(kind: int, pos: Position, material: Material, seams: set<int>, rest: int)

  function XY(o: Op, k: int): Num
    requires 0 <= k < 8
  {
    match o.pos
    case Native(xy) => Finite(xy[k] as real)
    case Presented(at) => at[k]
  }

  predicate Eligible(o: Op) {
    o.kind == VDP1_QUAD && (o.material.drawType == 2 || o.material.drawType == 4)
  }

  function NextCorner(k: int): (j: int)
    requires 0 <= k < 4
    ensures 0 <= j < 4 && j != k
  {
    (k + 1) % 4
  }

  // Twice the signed area of an integer quad.
  function NativeArea(xy: NativeXY): int {
    (xy[0] * xy[3] - xy[2] * xy[1]) + (xy[2] * xy[5] - xy[4] * xy[3]) +
    (xy[4] * xy[7] - xy[6] * xy[5]) + (xy[6] * xy[1] - xy[0] * xy[7])
  }

  predicate Same(a: Op, b: Op)
    requires a.pos.Native? && b.pos.Native?
  {
    && Eligible(a) && Eligible(b) && a.material == b.material && a.seams == b.seams
    && var aa, ba := NativeArea(a.pos.xy), NativeArea(b.pos.xy);
    aa != 0 && ba != 0 && (aa < 0 <==> ba < 0)
  }

  function Square(x: int): int { x * x }

  function Distance(a: Op, b: Op): int
    requires a.pos.Native? && b.pos.Native?
  {
    var p, q := a.pos.xy, b.pos.xy;
    Square(p[0] - q[0]) + Square(p[1] - q[1]) + Square(p[2] - q[2]) + Square(p[3] - q[3]) +
    Square(p[4] - q[4]) + Square(p[5] - q[5]) + Square(p[6] - q[6]) + Square(p[7] - q[7])
  }

  // Matching looks the same from either side.
  lemma SquareEven(x: int, y: int)
    ensures Square(x - y) == Square(y - x) >= 0
  {
    assert (x - y) * (x - y) == (y - x) * (y - x);
  }

  lemma MatchingIsSymmetric(a: Op, b: Op)
    requires a.pos.Native? && b.pos.Native?
    ensures Same(a, b) == Same(b, a)
    ensures Distance(a, b) == Distance(b, a) >= 0
  {
    var p, q := a.pos.xy, b.pos.xy;
    forall k | 0 <= k < 8
      ensures Square(p[k] - q[k]) == Square(q[k] - p[k]) >= 0
    {
      SquareEven(p[k], q[k]);
    }
  }

  // Faces have no distance exactly when all eight coordinates agree.
  lemma DistanceIsZero(a: Op, b: Op)
    requires a.pos.Native? && b.pos.Native?
    ensures Distance(a, b) == 0 <==> a.pos.xy == b.pos.xy
  {
    hide Square;
    var p, q := a.pos.xy, b.pos.xy;
    forall k | 0 <= k < 8
      ensures Square(p[k] - q[k]) >= 0 && (Square(p[k] - q[k]) == 0 <==> p[k] == q[k])
    {
      SquareZero(p[k] - q[k]);
    }
    if p == q {
    } else {
      assert exists k | 0 <= k < 8 :: p[k] != q[k];
    }
  }

  lemma SquareZero(x: int)
    ensures Square(x) >= 0 && (Square(x) == 0 <==> x == 0)
  {
  }

  // Moving one coordinate of a face changes its distance by the squares of that
  // coordinate alone, whichever of the eight it is.
  lemma DistanceMoves(a: Op, b: Op, k: int, v: int)
    requires a.pos.Native? && b.pos.Native? && 0 <= k < 8
    ensures var p, q := a.pos.xy, b.pos.xy;
            Distance(a.(pos := Native(p[k := v])), b) - Distance(a, b) ==
            (v - q[k]) * (v - q[k]) - (p[k] - q[k]) * (p[k] - q[k])
  {
    var p, q := a.pos.xy, b.pos.xy;
    assert Square(v - q[k]) == (v - q[k]) * (v - q[k]) && Square(p[k] - q[k]) == (p[k] - q[k]) * (p[k] - q[k]);
    hide Square;
    var p' := p[k := v];
    assert forall j | 0 <= j < 8 && j != k :: p'[j] == p[j];
  }
}
