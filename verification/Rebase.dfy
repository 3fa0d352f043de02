/** Instance transforms carried across a dequantization node
    (moveInstancingToWrapper and rotateByQuaternion in
    assetpipe/execute_optimize.go), over the reals. */
module Rebase {
  import opened OpIds

  /** The product, named so that proofs can keep it closed. */
  function Mul(x: real, y: real): real {
    x * y
  }

  lemma MulSums(a: real, b: real, c: real)
    ensures Mul(a, b + c) == Mul(a, b) + Mul(a, c)
    ensures Mul(b + c, a) == Mul(b, a) + Mul(c, a)
    ensures Mul(b - c, a) == Mul(b, a) - Mul(c, a)
  {
  }

  lemma MulOrder(a: real, b: real, c: real)
    ensures Mul(a, Mul(b, c)) == Mul(Mul(a, b), c)
    ensures Mul(Mul(a, b), c) == Mul(Mul(a, c), b)
  {
  }

  datatype Vec = Vec(x: real, y: real, z: real) {
    function Plus(v: Vec): Vec {
      Vec(x + v.x, y + v.y, z + v.z)
    }

    function Times(s: real): Vec {
      Vec(Mul(x, s), Mul(y, s), Mul(z, s))
    }

    /** Axis by axis. */
    function Scaled(k: Vec): Vec {
      Vec(Mul(k.x, x), Mul(k.y, y), Mul(k.z, z))
    }
  }

  /** A rotation as glTF stores it: x, y, z and then w. */
  datatype Quat = Quat(x: real, y: real, z: real, w: real)

  function Cross(a: Vec, b: Vec): Vec {
    Vec(Mul(a.y, b.z) - Mul(a.z, b.y), Mul(a.z, b.x) - Mul(a.x, b.z), Mul(a.x, b.y) - Mul(a.y, b.x))
  }

  /** rotateByQuaternion: v + w t + q x t, where t is twice q x v. */
  function Rotate(q: Quat, v: Vec): Vec {
    var n := Vec(q.x, q.y, q.z);
    var t := Cross(n, v).Times(2.0);
    v.Plus(t.Times(q.w)).Plus(Cross(n, t))
  }

  lemma CrossPlus(a: Vec, u: Vec, v: Vec)
    ensures Cross(a, u.Plus(v)) == Cross(a, u).Plus(Cross(a, v))
  {
    hide Mul;
    MulSums(a.x, u.y, v.y);
    MulSums(a.x, u.z, v.z);
    MulSums(a.y, u.x, v.x);
    MulSums(a.y, u.z, v.z);
    MulSums(a.z, u.x, v.x);
    MulSums(a.z, u.y, v.y);
  }

  lemma CrossTimes(a: Vec, v: Vec, s: real)
    ensures Cross(a, v.Times(s)) == Cross(a, v).Times(s)
  {
    hide Mul;
    ScaleDifference(a.y, v.z, a.z, v.y, s);
    ScaleDifference(a.z, v.x, a.x, v.z, s);
    ScaleDifference(a.x, v.y, a.y, v.x, s);
  }

  lemma ScaleDifference(a: real, b: real, c: real, d: real, s: real)
    ensures Mul(a, Mul(b, s)) - Mul(c, Mul(d, s)) == Mul(Mul(a, b) - Mul(c, d), s)
  {
    hide Mul;
    MulOrder(a, b, s);
    MulOrder(c, d, s);
    MulSums(s, Mul(a, b), Mul(c, d));
  }

  lemma TimesPlus(u: Vec, v: Vec, s: real)
    ensures u.Plus(v).Times(s) == u.Times(s).Plus(v.Times(s))
  {
    hide Mul;
    MulSums(s, u.x, v.x);
    MulSums(s, u.y, v.y);
    MulSums(s, u.z, v.z);
  }

  lemma TimesTimes(v: Vec, s: real, r: real)
    ensures v.Times(s).Times(r) == v.Times(r).Times(s)
  {
    hide Mul;
    MulOrder(v.x, s, r);
    MulOrder(v.y, s, r);
    MulOrder(v.z, s, r);
  }

  lemma Shuffle(a: Vec, b: Vec, c: Vec, d: Vec, e: Vec, f: Vec)
    ensures a.Plus(b).Plus(c.Plus(d)).Plus(e.Plus(f)) == a.Plus(c).Plus(e).Plus(b.Plus(d).Plus(f))
  {
  }

  /** Turning is linear, for every quaternion, of length one or not. */
  lemma RotateIsLinear(q: Quat, u: Vec, v: Vec, s: real)
    ensures Rotate(q, u.Plus(v)) == Rotate(q, u).Plus(Rotate(q, v))
    ensures Rotate(q, v.Times(s)) == Rotate(q, v).Times(s)
  {
    hide Mul;
    var n := Vec(q.x, q.y, q.z);
    var a, b := Cross(n, u).Times(2.0), Cross(n, v).Times(2.0);
    CrossPlus(n, u, v);
    TimesPlus(Cross(n, u), Cross(n, v), 2.0);
    TimesPlus(a, b, q.w);
    CrossPlus(n, a, b);
    Shuffle(u, v, a.Times(q.w), b.Times(q.w), Cross(n, a), Cross(n, b));
    CrossTimes(n, v, s);
    TimesTimes(Cross(n, v), s, 2.0);
    TimesTimes(b, s, q.w);
    CrossTimes(n, b, s);
    TimesPlus(v, b.Times(q.w), s);
    TimesPlus(v.Plus(b.Times(q.w)), Cross(n, b), s);
  }

  // ---- what the turn is ----

  /** The first row of the rotation matrix of the quaternion (a, b, c, w), times the
      vector (x, y, z). */
  function FirstRow(a: real, b: real, c: real, w: real, x: real, y: real, z: real): real {
    (1.0 - 2.0 * (b * b + c * c)) * x + 2.0 * (a * b - c * w) * y + 2.0 * (a * c + b * w) * z
  }

  /** The rotation matrix applied to a vector: the second and third row follow from
      the first by renaming the axes in turn. */
  function Turned(q: Quat, v: Vec): Vec {
    Vec(FirstRow(q.x, q.y, q.z, q.w, v.x, v.y, v.z),
        FirstRow(q.y, q.z, q.x, q.w, v.y, v.z, v.x),
        FirstRow(q.z, q.x, q.y, q.w, v.z, v.x, v.y))
  }

  lemma TwiceBehind(b: real, z: real, c: real, y: real, w: real)
    ensures Mul(Mul(Mul(b, z) - Mul(c, y), 2.0), w) == 2.0 * (b * w * z) - 2.0 * (c * w * y)
  {
  }

  lemma TwiceInside(p: real, a: real, y: real, b: real, x: real)
    ensures Mul(p, Mul(Mul(a, y) - Mul(b, x), 2.0)) == 2.0 * (p * a * y) - 2.0 * (p * b * x)
  {
  }

  lemma RowTerms(a: real, b: real, c: real, w: real, x: real, y: real, z: real)
    ensures FirstRow(a, b, c, w, x, y, z)
         == x - 2.0 * (b * b * x) - 2.0 * (c * c * x) + 2.0 * (b * a * y) - 2.0 * (c * w * y) + 2.0 * (c * a * z) + 2.0 * (b * w * z)
  {
    assert (1.0 - 2.0 * (b * b + c * c)) * x == x - 2.0 * (b * b * x) - 2.0 * (c * c * x);
    assert 2.0 * (a * b - c * w) * y == 2.0 * (b * a * y) - 2.0 * (c * w * y);
    assert 2.0 * (a * c + b * w) * z == 2.0 * (c * a * z) + 2.0 * (b * w * z);
  }

  lemma MatrixRow(a: real, b: real, c: real, w: real, x: real, y: real, z: real)
    ensures x + Mul(Mul(Mul(b, z) - Mul(c, y), 2.0), w)
              + (Mul(b, Mul(Mul(a, y) - Mul(b, x), 2.0)) - Mul(c, Mul(Mul(c, x) - Mul(a, z), 2.0)))
         == FirstRow(a, b, c, w, x, y, z)
  {
    hide *;
    TwiceBehind(b, z, c, y, w);
    TwiceInside(b, a, y, b, x);
    TwiceInside(c, c, x, a, z);
    RowTerms(a, b, c, w, x, y, z);
  }

  /** Turning is the product with the rotation matrix of the quaternion. */
  lemma RotateIsMatrix(q: Quat, v: Vec)
    ensures Rotate(q, v) == Turned(q, v)
  {
    hide Mul, FirstRow;
    MatrixRow(q.x, q.y, q.z, q.w, v.x, v.y, v.z);
    MatrixRow(q.y, q.z, q.x, q.w, v.y, v.z, v.x);
    MatrixRow(q.z, q.x, q.y, q.w, v.z, v.x, v.y);
  }

  /** The axis of a turn stays where it is. */
  lemma AxisStays(q: Quat, s: real)
    ensures Rotate(q, Vec(q.x, q.y, q.z).Times(s)) == Vec(q.x, q.y, q.z).Times(s)
  {
  }

  function Dot(u: Vec, v: Vec): real {
    u.x * v.x + u.y * v.y + u.z * v.z
  }

  lemma Lagrange(n: Vec, t: Vec)
    ensures Dot(Cross(n, t), Cross(n, t)) == Dot(n, n) * Dot(t, t) - Dot(n, t) * Dot(n, t)
  {
  }

  lemma Orthogonal(n: Vec, t: Vec)
    ensures Dot(n, Cross(n, t)) == 0.0 && Dot(t, Cross(n, t)) == 0.0
  {
  }

  lemma Triple(n: Vec, v: Vec, t: Vec)
    ensures Dot(v, Cross(n, t)) == -Dot(Cross(n, v), t)
  {
  }

  lemma DotSquare(a: Vec, b: Vec)
    ensures Dot(a.Plus(b), a.Plus(b)) == Dot(a, a) + 2.0 * Dot(a, b) + Dot(b, b)
  {
    hide Dot, Vec.Plus;
    DotPlus(a, b, a.Plus(b));
    DotPlus(a, b, a);
    DotPlus(a, b, b);
    DotSymmetric(a, b);
  }

  lemma DotTimes(a: Vec, b: Vec, s: real)
    ensures Dot(a, b.Times(s)) == Dot(a, b) * s
  {
    assert a.x * (b.x * s) == a.x * b.x * s;
    assert a.y * (b.y * s) == a.y * b.y * s;
    assert a.z * (b.z * s) == a.z * b.z * s;
  }

  lemma DotScaled(a: Vec, s: real)
    ensures Dot(a.Times(s), a.Times(s)) == Dot(a, a) * (s * s)
  {
    var d := Dot(a, a);
    DotTimes(a.Times(s), a, s);
    DotSymmetric(a.Times(s), a);
    DotTimes(a, a, s);
    hide *;
    assert d * s * s == d * (s * s);
  }

  lemma DotPlus(a: Vec, b: Vec, c: Vec)
    ensures Dot(a.Plus(b), c) == Dot(a, c) + Dot(b, c) == Dot(c, a.Plus(b))
  {
  }

  lemma DotSymmetric(a: Vec, b: Vec)
    ensures Dot(a, b) == Dot(b, a)
  {
  }

  lemma Lengths(v: real, t: real, n: real, w: real)
    requires n + w * w == 1.0
    ensures v + t * (w * w) - t + n * t == v
  {
    assert n * t == t - t * (w * w);
  }

  /** The three vectors that a turn adds up: v, a multiple of t, and n x t. */
  lemma TurnParts(n: Vec, v: Vec, w: real)
    ensures var t := Cross(n, v).Times(2.0); var a, b := t.Times(w), Cross(n, t);
            && Dot(v, a) == 0.0 && Dot(a, b) == 0.0 && Dot(a, a) == Dot(t, t) * (w * w)
            && 2.0 * Dot(v, b) == -Dot(t, t) && Dot(b, b) == Dot(n, n) * Dot(t, t)
  {
    hide *;
    var c := Cross(n, v);
    var t := c.Times(2.0);
    Orthogonal(n, v);
    Orthogonal(n, t);
    DotTimes(v, c, 2.0);
    assert Dot(v, t) == 0.0;
    DotTimes(n, c, 2.0);
    assert Dot(n, t) == 0.0;
    DotTimes(c, c, 2.0);
    DotScaled(c, 2.0);
    assert Dot(c, t) == Dot(c, c) * 2.0 && Dot(t, t) == Dot(c, c) * (2.0 * 2.0);
    Triple(n, v, t);
    Lagrange(n, t);
    DotTimes(v, t, w);
    DotScaled(t, w);
    DotTimes(Cross(n, t), t, w);
    DotSymmetric(t, Cross(n, t));
    DotSymmetric(t.Times(w), Cross(n, t));
  }

  /** A quaternion of length one keeps lengths. */
  lemma LengthStays(q: Quat, v: Vec)
    requires q.x * q.x + q.y * q.y + q.z * q.z + q.w * q.w == 1.0
    ensures Dot(Rotate(q, v), Rotate(q, v)) == Dot(v, v)
  {
    var n := Vec(q.x, q.y, q.z);
    var t := Cross(n, v).Times(2.0);
    var a, b := t.Times(q.w), Cross(n, t);
    assert Rotate(q, v) == v.Plus(a).Plus(b);
    assert Dot(n, n) + q.w * q.w == 1.0;
    hide *;
    TurnParts(n, v, q.w);
    DotSquare(v, a);
    DotSquare(v.Plus(a), b);
    DotPlus(v, a, b);
    Lengths(Dot(v, v), Dot(t, t), Dot(n, n), q.w);
  }

  /** One instance: scale, then turn, then move. */
  datatype Instance = Instance(t: Vec, r: Quat, k: Vec) {
    function Draw(p: Vec): Vec {
      t.Plus(Rotate(r, p.Scaled(k)))
    }
  }

  /** The grid a wrapper node undoes: one scale for all axes, and an offset. */
  datatype Grid = Grid(scale: real, offset: Vec) {
    function Dequantize(q: Vec): Vec {
      offset.Plus(q.Times(scale))
    }
  }

  /** The translation that the loop writes. */
  function Rebased(i: Instance, grid: Grid): Instance
    requires grid.scale != 0.0
  {
    var turned := Rotate(i.r, grid.offset.Scaled(i.k));
    Instance(Vec((i.t.x - grid.offset.x + turned.x) / grid.scale,
                 (i.t.y - grid.offset.y + turned.y) / grid.scale,
                 (i.t.z - grid.offset.z + turned.z) / grid.scale), i.r, i.k)
  }

  lemma ScaledParts(k: Vec, offset: Vec, q: Vec, s: real)
    ensures offset.Plus(q.Times(s)).Scaled(k) == offset.Scaled(k).Plus(q.Scaled(k).Times(s))
  {
    hide Mul;
    MulSums(k.x, offset.x, Mul(q.x, s));
    MulSums(k.y, offset.y, Mul(q.y, s));
    MulSums(k.z, offset.z, Mul(q.z, s));
    MulOrder(k.x, q.x, s);
    MulOrder(k.y, q.y, s);
    MulOrder(k.z, q.z, s);
  }

  lemma Quotient(x: real, s: real)
    requires s != 0.0
    ensures Mul(x / s, s) == x
  {
  }

  lemma Undivide(v: Vec, s: real)
    requires s != 0.0
    ensures Vec(v.x / s, v.y / s, v.z / s).Times(s) == v
  {
    hide Mul;
    Quotient(v.x, s);
    Quotient(v.y, s);
    Quotient(v.z, s);
  }

  lemma MovedBack(o: Vec, t: Vec, turned: Vec, r: Vec, x: Vec, s: real)
    requires x.Times(s) == Vec(t.x - o.x + turned.x, t.y - o.y + turned.y, t.z - o.z + turned.z)
    ensures o.Plus(x.Plus(r).Times(s)) == t.Plus(turned.Plus(r.Times(s)))
  {
    TimesPlus(x, r, s);
  }

  lemma RebasedTranslation(i: Instance, grid: Grid)
    requires grid.scale != 0.0
    ensures var turned := Rotate(i.r, grid.offset.Scaled(i.k));
            Rebased(i, grid).t.Times(grid.scale)
              == Vec(i.t.x - grid.offset.x + turned.x, i.t.y - grid.offset.y + turned.y, i.t.z - grid.offset.z + turned.z)
  {
    var turned := Rotate(i.r, grid.offset.Scaled(i.k));
    hide Rotate, Vec.Times, Vec.Scaled;
    Undivide(Vec(i.t.x - grid.offset.x + turned.x, i.t.y - grid.offset.y + turned.y, i.t.z - grid.offset.z + turned.z), grid.scale);
  }

  /** Drawing a lattice point through the rebased instance and the wrapper is
      drawing the dequantized point through the original instance. */
  lemma RebaseKeepsDrawing(i: Instance, grid: Grid, q: Vec)
    requires grid.scale != 0.0
    ensures grid.Dequantize(Rebased(i, grid).Draw(q)) == i.Draw(grid.Dequantize(q))
  {
    var s, x := grid.scale, Rebased(i, grid).t;
    assert Rebased(i, grid) == Instance(x, i.r, i.k);
    hide Rotate, Rebased, Vec.Plus, Vec.Times, Vec.Scaled;
    var turned, moved := Rotate(i.r, grid.offset.Scaled(i.k)), Rotate(i.r, q.Scaled(i.k));
    ScaledParts(i.k, grid.offset, q, s);
    RotateIsLinear(i.r, grid.offset.Scaled(i.k), q.Scaled(i.k).Times(s), s);
    RotateIsLinear(i.r, grid.offset, q.Scaled(i.k), s);
    RebasedTranslation(i, grid);
    MovedBack(grid.offset, i.t, turned, moved, x, s);
  }

  // ---- the loop ----

  /** The attribute accessors of EXT_mesh_gpu_instancing, flat; absent is None. */
  datatype Attributes = Attributes(translations: Option<seq<real>>, rotations: Option<seq<real>>, scales: Option<seq<real>>)

  function Flat(a: Option<seq<real>>): seq<real> {
    if a.Some? then a.value else []
  }

  function VecAt(values: seq<real>, i: nat, default_: Vec): Vec {
    if |values| >= (i + 1) * 3 then Vec(values[i * 3], values[i * 3 + 1], values[i * 3 + 2]) else default_
  }

  function QuatAt(values: seq<real>, i: nat, default_: Quat): Quat {
    if |values| >= (i + 1) * 4 then Quat(values[i * 4], values[i * 4 + 1], values[i * 4 + 2], values[i * 4 + 3]) else default_
  }

  /** Instance i; a missing attribute is the identity. */
  function InstanceAt(a: Attributes, i: nat): Instance {
    Instance(VecAt(Flat(a.translations), i, Vec(0.0, 0.0, 0.0)),
             QuatAt(Flat(a.rotations), i, Quat(0.0, 0.0, 0.0, 1.0)),
             VecAt(Flat(a.scales), i, Vec(1.0, 1.0, 1.0)))
  }

  /** The accessors are read row by row, and a missing or short one leaves its part of
      the instance at rest: no move, no turn, no scale. */
  lemma InstanceParts(a: Attributes, i: nat, p: Vec)
    ensures var t := Flat(a.translations); var part := InstanceAt(a, i).t;
            if |t| >= 3 * i + 3 then [part.x, part.y, part.z] == t[3 * i..3 * i + 3] else part.Plus(p) == p
    ensures var r := Flat(a.rotations); var part := InstanceAt(a, i).r;
            if |r| >= 4 * i + 4 then [part.x, part.y, part.z, part.w] == r[4 * i..4 * i + 4] else Rotate(part, p) == p
    ensures var k := Flat(a.scales); var part := InstanceAt(a, i).k;
            if |k| >= 3 * i + 3 then [part.x, part.y, part.z] == k[3 * i..3 * i + 3] else p.Scaled(part) == p
  {
    AtRest(p);
    hide Rotate, Vec.Plus, Vec.Scaled;
  }

  lemma AtRest(p: Vec)
    ensures Vec(0.0, 0.0, 0.0).Plus(p) == p && Rotate(Quat(0.0, 0.0, 0.0, 1.0), p) == p && p.Scaled(Vec(1.0, 1.0, 1.0)) == p
  {
  }

  function MaxNat(a: nat, b: nat): nat {
    if a > b then a else b
  }

  function Count(a: Attributes): nat {
    MaxNat(MaxNat(|Flat(a.translations)| / 3, |Flat(a.rotations)| / 4), |Flat(a.scales)| / 3)
  }

  lemma VecAtMore(values: seq<real>, v: Vec, i: nat, j: nat, d: Vec)
    requires |values| == 3 * i && j <= i
    ensures VecAt(values + [v.x, v.y, v.z], j, d) == if j == i then v else VecAt(values, j, d)
  {
  }

  /** moveInstancingToWrapper: the attributes of the wrapper, None when there is
      nothing to move. Every instance draws what it drew. */
  method MoveInstancingToWrapper(a: Attributes, grid: Grid) returns (moved: Option<Attributes>)
    requires grid.scale != 0.0
    ensures moved.None? <==> Count(a) == 0
    ensures moved.Some? ==> |Flat(moved.value.translations)| == 3 * Count(a) && Count(moved.value) == Count(a)
    ensures moved.Some? ==> moved.value.rotations == a.rotations && moved.value.scales == a.scales
    ensures moved.Some? ==> forall i, q :: 0 <= i < Count(a) ==>
              grid.Dequantize(InstanceAt(moved.value, i).Draw(q)) == InstanceAt(a, i).Draw(grid.Dequantize(q))
  {
    var count := 0;
    var translations, rotations, scales := Flat(a.translations), Flat(a.rotations), Flat(a.scales);
    if |translations| / 3 > count { count := |translations| / 3; }
    if |rotations| / 4 > count { count := |rotations| / 4; }
    if |scales| / 3 > count { count := |scales| / 3; }
    if count == 0 {
      return None;
    }
    var rebased: seq<real> := [];
    hide Rotate, Rebased, InstanceAt, VecAt, Instance.Draw;
    for i := 0 to count
      invariant |rebased| == 3 * i
      invariant forall j :: 0 <= j < i ==> VecAt(rebased, j, Vec(0.0, 0.0, 0.0)) == Rebased(InstanceAt(a, j), grid).t
    {
      var x := Rebased(InstanceAt(a, i), grid).t;
      forall j | 0 <= j < i + 1
        ensures VecAt(rebased + [x.x, x.y, x.z], j, Vec(0.0, 0.0, 0.0)) == Rebased(InstanceAt(a, j), grid).t
      {
        VecAtMore(rebased, x, i, j, Vec(0.0, 0.0, 0.0));
      }
      rebased := rebased + [x.x, x.y, x.z];
    }
    moved := Some(Attributes(Some(rebased), a.rotations, a.scales));
    forall i, q | 0 <= i < count
      ensures grid.Dequantize(InstanceAt(moved.value, i).Draw(q)) == InstanceAt(a, i).Draw(grid.Dequantize(q))
    {
      SameInstance(a, rebased, grid, i);
      RebaseKeepsDrawing(InstanceAt(a, i), grid, q);
    }
  }

  lemma SameInstance(a: Attributes, rebased: seq<real>, grid: Grid, i: nat)
    requires grid.scale != 0.0
    requires VecAt(rebased, i, Vec(0.0, 0.0, 0.0)) == Rebased(InstanceAt(a, i), grid).t
    ensures InstanceAt(Attributes(Some(rebased), a.rotations, a.scales), i) == Rebased(InstanceAt(a, i), grid)
  {
    hide Rotate, VecAt, QuatAt;
  }
}
