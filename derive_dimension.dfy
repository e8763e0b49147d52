/** The dimension derive macro: which struct fields it accepts, and the
    exponent-vector algebra of the methods it generates. A dimension value is
    the sequence of its field values, in declaration order. */
module DeriveDimension {
  import opened Wrappers

  /** The field types the derive accepts. */
  const AllowedTypes: seq<string> := ["i8", "i32", "i64"]

  const UnexpectedFieldType := "Found unexpected field type while deriving diman_dimension methods."
  const SqrtNotDivisible := "Cannot take square root of quantity with a dimension that is not divisible by 2 in all components."
  const CbrtNotDivisible := "Cannot take cubic root of quantity with a dimension that is not divisible by 3 in all components."

  /** The written type of a field: a path (its segments' identifiers) or any
      other type form (reference, tuple, array, ...). */
  datatype FieldType = Path(segments: seq<string>) | NonPath

  datatype Field = Field(ident: string, ty: FieldType)

  datatype Fields = Named(named: seq<Field>) | Unnamed(unnamed: seq<FieldType>) | Unit

  datatype Data = Struct(fields: Fields) | Enum | Union

  datatype DeriveInput = DeriveInput(ident: string, data: Data)

  predicate IsAllowedType(ty: FieldType) {
    ty.Path? && |ty.segments| == 1 && ty.segments[0] in AllowedTypes
  }

  /** The named fields the derive walks over: none unless the input is a
      struct with named fields. */
  function NamedFields(input: DeriveInput): seq<Field> {
    if input.data.Struct? && input.data.fields.Named? then input.data.fields.named else []
  }

  /** Collects the field names in declaration order, panicking at the first
      field whose type is not one of `i8`, `i32`, `i64` written as a
      single-segment path. */
  method DimensionFieldNames(input: DeriveInput) returns (r: Result<seq<string>, string>)
    ensures r.Ok? <==> forall k :: 0 <= k < |NamedFields(input)| ==> IsAllowedType(NamedFields(input)[k].ty)
    ensures r.Ok? ==> |r.value| == |NamedFields(input)|
    ensures r.Ok? ==> forall k :: 0 <= k < |r.value| ==> r.value[k] == NamedFields(input)[k].ident
    ensures r.Err? ==> r.error == UnexpectedFieldType
  {
    var fieldNames: seq<string> := [];
    if input.data.Struct? && input.data.fields.Named? {
      var fields := input.data.fields.named;
      for k := 0 to |fields|
        invariant |fieldNames| == k
        invariant forall k' :: 0 <= k' < k ==> IsAllowedType(fields[k'].ty)
        invariant forall k' :: 0 <= k' < k ==> fieldNames[k'] == fields[k'].ident
      {
        var f := fields[k];
        if f.ty.Path? {
          if |f.ty.segments| != 1 {
            assert !IsAllowedType(NamedFields(input)[k].ty);
            return Err(UnexpectedFieldType);
          } else {
            var typeName := f.ty.segments[0];
            if typeName !in AllowedTypes {
              assert !IsAllowedType(NamedFields(input)[k].ty);
              return Err(UnexpectedFieldType);
            }
          }
        } else {
          assert !IsAllowedType(NamedFields(input)[k].ty);
          return Err(UnexpectedFieldType);
        }
        fieldNames := fieldNames + [f.ident];
      }
    }
    return Ok(fieldNames);
  }

  /** An exponent vector: one entry per field of the dimension struct. */
  type Dimension = seq<int>

  /** Rust's `%` on integers: the remainder takes the sign of the dividend. */
  function TruncRem(x: int, k: int): (r: int)
    requires k > 0
    ensures -k < r < k
    ensures x >= 0 ==> r >= 0
    ensures x < 0 ==> r <= 0
    ensures (r == 0) <==> (x % k == 0)
  {
    if x >= 0 then x % k
    else
      NegatedRemainder(x, k);
      -((-x) % k)
  }

  lemma MulLowerBound(d: int, k: int)
    requires k > 0 && d >= 1
    ensures d * k >= k
  {
    assert d * k == k + (d - 1) * k;
  }

  /** Dafny's `%` is determined by any quotient and remainder in range. */
  lemma EuclideanUnique(x: int, k: int, q: int, r: int)
    requires k > 0 && 0 <= r < k && x == q * k + r
    ensures x % k == r
  {
    var d := q - x / k;
    assert d * k == x % k - r;
    if d >= 1 {
      MulLowerBound(d, k);
    } else if d <= -1 {
      MulLowerBound(-d, k);
    }
  }

  lemma NegatedRemainder(x: int, k: int)
    requires k > 0
    ensures ((-x) % k == 0) <==> (x % k == 0)
  {
    var q, r := (-x) / k, (-x) % k;
    if r == 0 {
      EuclideanUnique(x, k, -q, 0);
    } else {
      EuclideanUnique(x, k, -q - 1, k - r);
    }
  }

  /** Rust's `/` on integers: the quotient is rounded toward zero. */
  function TruncDiv(x: int, k: int): (r: int)
    requires k > 0
    ensures r * k + TruncRem(x, k) == x
  {
    if x >= 0 then x / k else -((-x) / k)
  }

  /** `none()`: the dimensionless vector. */
  function Dimensionless(n: nat): (r: Dimension)
    ensures |r| == n
    ensures forall i :: 0 <= i < n ==> r[i] == 0
  {
    seq(n, i => 0)
  }

  /** `dimension_mul`: the exponents of a product. */
  function Mul(a: Dimension, b: Dimension): (r: Dimension)
    requires |a| == |b|
    ensures |r| == |a|
    ensures forall i :: 0 <= i < |r| ==> r[i] == a[i] + b[i]
  {
    seq(|a|, i requires 0 <= i < |a| => a[i] + b[i])
  }

  /** `dimension_div`: the exponents of a quotient. */
  function Div(a: Dimension, b: Dimension): (r: Dimension)
    requires |a| == |b|
    ensures |r| == |a|
    ensures forall i :: 0 <= i < |r| ==> r[i] == a[i] - b[i]
  {
    seq(|a|, i requires 0 <= i < |a| => a[i] - b[i])
  }

  /** `dimension_inv`: the exponents of a reciprocal. */
  function Inv(a: Dimension): (r: Dimension)
    ensures |r| == |a|
    ensures forall i :: 0 <= i < |r| ==> r[i] == -a[i]
  {
    seq(|a|, i requires 0 <= i < |a| => -a[i])
  }

  /** `dimension_powi`: the exponents of an integer power. */
  function Powi(a: Dimension, n: int): (r: Dimension)
    ensures |r| == |a|
    ensures forall i :: 0 <= i < |r| ==> r[i] == a[i] * n
  {
    seq(|a|, i requires 0 <= i < |a| => a[i] * n)
  }

  /** Every component is a multiple of k. */
  predicate DivisibleBy(a: Dimension, k: nat)
    requires k > 0
  {
    forall i :: 0 <= i < |a| ==> TruncRem(a[i], k) == 0
  }

  /** The generated root: panics unless every component is divisible by k,
      otherwise divides every component by k. */
  function Root(a: Dimension, k: nat, message: string): (r: Result<Dimension, string>)
    requires k > 0
    ensures r.Err? <==> exists i :: 0 <= i < |a| && a[i] % k != 0
    ensures r.Err? ==> r.error == message
    ensures r.Ok? ==> |r.value| == |a| && forall i :: 0 <= i < |a| ==> r.value[i] * k == a[i]
  {
    if !DivisibleBy(a, k) then Err(message)
    else Ok(seq(|a|, i requires 0 <= i < |a| => TruncDiv(a[i], k)))
  }

  /** `dimension_sqrt`. */
  function Sqrt(a: Dimension): (r: Result<Dimension, string>)
    ensures r.Err? <==> exists i :: 0 <= i < |a| && a[i] % 2 != 0
    ensures r.Err? ==> r.error == SqrtNotDivisible
    ensures r.Ok? ==> |r.value| == |a| && forall i :: 0 <= i < |a| ==> 2 * r.value[i] == a[i]
  {
    Root(a, 2, SqrtNotDivisible)
  }

  /** `dimension_cbrt`. */
  function Cbrt(a: Dimension): (r: Result<Dimension, string>)
    ensures r.Err? <==> exists i :: 0 <= i < |a| && a[i] % 3 != 0
    ensures r.Err? ==> r.error == CbrtNotDivisible
    ensures r.Ok? ==> |r.value| == |a| && forall i :: 0 <= i < |a| ==> 3 * r.value[i] == a[i]
  {
    Root(a, 3, CbrtNotDivisible)
  }

  lemma MulDimensionlessIdentity(a: Dimension)
    ensures Mul(a, Dimensionless(|a|)) == a
    ensures Mul(Dimensionless(|a|), a) == a
  {
  }

  lemma MulCommutative(a: Dimension, b: Dimension)
    requires |a| == |b|
    ensures Mul(a, b) == Mul(b, a)
  {
  }

  lemma MulAssociative(a: Dimension, b: Dimension, c: Dimension)
    requires |a| == |b| == |c|
    ensures Mul(Mul(a, b), c) == Mul(a, Mul(b, c))
  {
  }

  lemma DivSelf(a: Dimension)
    ensures Div(a, a) == Dimensionless(|a|)
  {
  }

  lemma DivIsMulInv(a: Dimension, b: Dimension)
    requires |a| == |b|
    ensures Div(a, b) == Mul(a, Inv(b))
  {
  }

  lemma InvInvolutive(a: Dimension)
    ensures Inv(Inv(a)) == a
  {
  }

  lemma InvIsMulInverse(a: Dimension)
    ensures Mul(a, Inv(a)) == Dimensionless(|a|)
  {
  }

  lemma PowiSpecialExponents(a: Dimension)
    ensures Powi(a, 0) == Dimensionless(|a|)
    ensures Powi(a, 1) == a
    ensures Powi(a, -1) == Inv(a)
  {
  }

  lemma PowiTwoIsSquare(a: Dimension)
    ensures Powi(a, 2) == Mul(a, a)
  {
  }

  /** Integer powers add exponents. */
  lemma PowiAdd(a: Dimension, m: int, n: int)
    ensures Powi(a, m + n) == Mul(Powi(a, m), Powi(a, n))
  {
    forall i | 0 <= i < |a|
      ensures a[i] * (m + n) == a[i] * m + a[i] * n
    {
    }
  }

  /** The root of a square is the original vector. */
  lemma SqrtOfSquare(a: Dimension)
    ensures Sqrt(Mul(a, a)) == Ok(a)
  {
    var sq := Mul(a, a);
    forall i | 0 <= i < |sq|
      ensures sq[i] % 2 == 0
    {
      assert sq[i] == 2 * a[i];
    }
    var r := Sqrt(sq);
    assert r.Ok?;
    assert r.value == a;
  }

  /** The cube root of a cube is the original vector. */
  lemma CbrtOfCube(a: Dimension)
    ensures Cbrt(Powi(a, 3)) == Ok(a)
  {
    var cube := Powi(a, 3);
    forall i | 0 <= i < |cube|
      ensures cube[i] % 3 == 0
    {
      assert cube[i] == 3 * a[i];
    }
    var r := Cbrt(cube);
    assert r.Ok?;
    assert r.value == a;
  }

  /** A successful root, raised back to the power, gives the original vector. */
  lemma SqrtThenSquare(a: Dimension)
    requires Sqrt(a).Ok?
    ensures Mul(Sqrt(a).value, Sqrt(a).value) == a
  {
  }
}
