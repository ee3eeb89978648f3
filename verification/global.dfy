/** The globally shared helpers of the solver: the element-type, equation and
    correction-scheme enumerations, the 3-component coordinate point, and the
    small vector search and arithmetic helpers. */
module Global {
  import opened Common

  // Element types (ETYPE).
  const TRI: int := 0
  const QUAD: int := 1
  const TET: int := 2
  const PRISM: int := 3
  const HEX: int := 4
  const PYRAMID: int := 5

  // Equation sets (EQUATION).
  const ADVECTION_DIFFUSION: int := 0
  const NAVIER_STOKES: int := 1

  // VCJH correction schemes (VCJH_SCHEME).
  const DG: int := 0
  const SD: int := 1
  const HU: int := 2
  const CPLUS: int := 3

  /** A coordinate point, copied freely; a default point is the origin. */
  datatype Point = Point(x: real, y: real, z: real) {

    /** operator[]: dimension 0, 1, 2 selects x, y, z; any other index is fatal. */
    function Get(ind: int): (r: Option<real>)
      ensures r.Some? <==> 0 <= ind < 3
      ensures ind == 0 ==> r == Some(x)
      ensures ind == 1 ==> r == Some(y)
      ensures ind == 2 ==> r == Some(z)
    {
      match ind
      case 0 => Some(x)
      case 1 => Some(y)
      case 2 => Some(z)
      case _ => None
    }

    /** Assignment through operator[]: the selected coordinate becomes v. */
    function With(ind: int, v: real): (r: Result<Point>)
      ensures r.Ok? <==> 0 <= ind < 3
      ensures r.Ok? ==> r.value.Get(ind) == Some(v)
      ensures r.Ok? ==> forall d :: 0 <= d < 3 && d != ind ==> r.value.Get(d) == Get(d)
    {
      match ind
      case 0 => Ok(Point(v, y, z))
      case 1 => Ok(Point(x, v, z))
      case 2 => Ok(Point(x, y, v))
      case _ => Error("Invalid index for point struct.")
    }

    /** zero(): every coordinate is reset; the result is the default point. */
    function Zeroed(): (r: Point)
      ensures forall d :: 0 <= d < 3 ==> r.Get(d) == Some(0.0)
      ensures r == Origin()
    {
      Point(0.0, 0.0, 0.0)
    }
  }

  /** The default-constructed point. */
  function Origin(): Point
  {
    Point(0.0, 0.0, 0.0)
  }

  /** findEq: the indices of vec holding val, in increasing order. */
  method FindEq<T(==)>(vec: seq<T>, val: T) returns (out: seq<int>)
    ensures forall k :: 0 <= k < |out| ==> 0 <= out[k] < |vec| && vec[out[k]] == val
    ensures forall k, l :: 0 <= k < l < |out| ==> out[k] < out[l]
    ensures forall i :: 0 <= i < |vec| && vec[i] == val ==> i in out
  {
    out := [];
    var i := 0;
    while i < |vec|
      invariant 0 <= i <= |vec|
      invariant forall k :: 0 <= k < |out| ==> 0 <= out[k] < i && vec[out[k]] == val
      invariant forall k, l :: 0 <= k < l < |out| ==> out[k] < out[l]
      invariant forall j :: 0 <= j < i && vec[j] == val ==> j in out
    {
      if vec[i] == val {
        out := out + [i];
      }
      i := i + 1;
    }
  }

  /** The answer findFirst must give: -1 when val is absent, else its first index. */
  predicate IsFirstIndex<T(==)>(vec: seq<T>, val: T, r: int)
  {
    if val in vec then 0 <= r < |vec| && vec[r] == val && val !in vec[..r]
    else r == -1
  }

  /** findFirst over the first `length` entries behind a pointer. */
  method FindFirstIn<T(==)>(vec: seq<T>, val: T, length: nat) returns (r: int)
    requires length <= |vec|
    ensures IsFirstIndex(vec[..length], val, r)
  {
    if length == 0 {
      return -1;
    }
    var i := 0;
    while i < length
      invariant 0 <= i <= length
      invariant val !in vec[..i]
    {
      if vec[i] == val {
        assert vec[..length][..i] == vec[..i];
        return i;
      }
      assert vec[..i + 1] == vec[..i] + [vec[i]];
      i := i + 1;
    }
    assert vec[..length] == vec[..i];
    return -1;
  }

  /** findFirst over a whole vector. */
  method FindFirst<T(==)>(vec: seq<T>, val: T) returns (r: int)
    ensures IsFirstIndex(vec, val, r)
  {
    r := FindFirstIn(vec, val, |vec|);
    assert vec[..|vec|] == vec;
  }

  /** vecAssign: vec[i] := val for every i listed in ind; the rest is untouched. */
  method VecAssign<T>(vec: array<T>, ind: seq<int>, val: T)
    requires forall k :: 0 <= k < |ind| ==> 0 <= ind[k] < vec.Length
    modifies vec
    ensures forall p :: 0 <= p < vec.Length ==> vec[p] == if p in ind then val else old(vec[p])
  {
    var k := 0;
    while k < |ind|
      invariant 0 <= k <= |ind|
      invariant forall p :: 0 <= p < vec.Length ==>
        vec[p] == if p in ind[..k] then val else old(vec[p])
    {
      vec[ind[k]] := val;
      assert ind[..k + 1] == ind[..k] + [ind[k]];
      k := k + 1;
    }
    assert ind[..k] == ind;
  }

  /** getMax: the largest element, but never below the initial maximum 0. */
  method GetMax(vec: seq<real>) returns (max: real)
    ensures max >= 0.0
    ensures forall i :: 0 <= i < |vec| ==> vec[i] <= max
    ensures max == 0.0 || max in vec
  {
    max := 0.0;
    var i := 0;
    while i < |vec|
      invariant 0 <= i <= |vec|
      invariant max >= 0.0
      invariant forall j :: 0 <= j < i ==> vec[j] <= max
      invariant max == 0.0 || max in vec
    {
      if vec[i] > max {
        max := vec[i];
      }
      i := i + 1;
    }
  }

  /** addVectors: vec1 += vec2 elementwise; vectors of different sizes are fatal. */
  method AddVectors(vec1: array<real>, vec2: seq<real>) returns (st: Status)
    modifies vec1
    ensures st.Fatal? <==> vec1.Length != |vec2|
    ensures st.Fatal? ==> vec1[..] == old(vec1[..])
    ensures st.Done? ==> forall i :: 0 <= i < vec1.Length ==> vec1[i] == old(vec1[i]) + vec2[i]
  {
    if vec1.Length != |vec2| {
      return Fatal("Vectors not of same size.");
    }
    var i := 0;
    while i < vec1.Length
      invariant 0 <= i <= vec1.Length
      invariant forall j :: 0 <= j < i ==> vec1[j] == old(vec1[j]) + vec2[j]
      invariant forall j :: i <= j < vec1.Length ==> vec1[j] == old(vec1[j])
    {
      vec1[i] := vec1[i] + vec2[i];
      i := i + 1;
    }
    return Done;
  }

  /** operator+=: the same update as addVectors, on the left operand. */
  method AddAssign(lhs: array<real>, rhs: seq<real>) returns (st: Status)
    modifies lhs
    ensures st.Fatal? <==> lhs.Length != |rhs|
    ensures st.Fatal? ==> lhs[..] == old(lhs[..])
    ensures st.Done? ==> forall i :: 0 <= i < lhs.Length ==> lhs[i] == old(lhs[i]) + rhs[i]
  {
    st := AddVectors(lhs, rhs);
  }

  /** operator+: a new vector of elementwise sums; sizes must agree. */
  method Plus(lhs: seq<real>, rhs: seq<real>) returns (r: Result<seq<real>>)
    ensures r.Error? <==> |lhs| != |rhs|
    ensures r.Ok? ==> |r.value| == |lhs|
    ensures r.Ok? ==> forall i :: 0 <= i < |lhs| ==> r.value[i] == lhs[i] + rhs[i]
  {
    if |lhs| != |rhs| {
      return Error("Vectors not of same size.");
    }
    var out := seq(|lhs|, _ => 0.0);
    var i := 0;
    while i < |lhs|
      invariant 0 <= i <= |lhs|
      invariant |out| == |lhs|
      invariant forall j :: 0 <= j < i ==> out[j] == lhs[j] + rhs[j]
    {
      out := out[i := lhs[i] + rhs[i]];
      i := i + 1;
    }
    return Ok(out);
  }
}
