/**
 * The `Size` algebra of the packet components: a byte count that is
 * either `Constant` (the component says every value of its type has it)
 * or `Dynamic`, the `Add` rules, the constant/dynamic counters of the
 * struct and enum macros, and the size loops of `Vec<T>` and `[T; N]`,
 * which stop at the first element reporting a constant size.
 */
module Sizes {

  datatype Size = Dynamic(n: nat) | Constant(n: nat)

  /** `Size + Size`: constant only when both operands are. */
  function Add(a: Size, b: Size): (r: Size)
    ensures r.n == a.n + b.n
    ensures r.Constant? <==> a.Constant? && b.Constant?
  {
    match (a, b)
    case (Constant(x), Constant(y)) => Constant(x + y)
    case _ => Dynamic(a.n + b.n)
  }

  /** `Size + usize`: always dynamic. */
  function AddCount(a: Size, x: nat): (r: Size)
    ensures r.Dynamic? && r.n == a.n + x
  {
    Dynamic(a.n + x)
  }

  /** `Add` is associative and commutative, with `Constant(0)` as its unit. */
  lemma AddLaws(a: Size, b: Size, c: Size)
    ensures Add(Add(a, b), c) == Add(a, Add(b, c))
    ensures Add(a, b) == Add(b, a)
    ensures Add(Constant(0), a) == a
  {
  }

  // ---------------------------------------------------------------
  // Sums over a sequence of sizes
  // ---------------------------------------------------------------

  /** The bytes all the sizes stand for. */
  function Total(sizes: seq<Size>): nat
  {
    if |sizes| == 0 then 0 else Total(sizes[..|sizes| - 1]) + sizes[|sizes| - 1].n
  }

  lemma {:induction false} TotalAppend(a: seq<Size>, b: seq<Size>)
    ensures Total(a + b) == Total(a) + Total(b)
  {
    if |b| > 0 {
      TotalAppend(a, b[..|b| - 1]);
      assert (a + b)[..|a + b| - 1] == a + b[..|b| - 1];
    } else {
      assert a + b == a;
    }
  }

  /** The bytes of the sizes reported as constant. */
  function ConstantPart(sizes: seq<Size>): nat
  {
    if |sizes| == 0 then 0
    else ConstantPart(sizes[..|sizes| - 1]) + (if sizes[|sizes| - 1].Constant? then sizes[|sizes| - 1].n else 0)
  }

  lemma {:induction false} ConstantPartBounded(sizes: seq<Size>)
    ensures ConstantPart(sizes) <= Total(sizes)
    ensures ConstantPart(sizes) == Total(sizes) <==> forall i :: 0 <= i < |sizes| && sizes[i].Dynamic? ==> sizes[i].n == 0
  {
    if |sizes| > 0 {
      var init := sizes[..|sizes| - 1];
      ConstantPartBounded(init);
      assert forall i :: 0 <= i < |init| ==> init[i] == sizes[i];
    }
  }

  /** Folding the sizes with `Add`, starting from `Constant(0)`. */
  function Sum(sizes: seq<Size>): Size
  {
    if |sizes| == 0 then Constant(0) else Add(Sum(sizes[..|sizes| - 1]), sizes[|sizes| - 1])
  }

  lemma {:induction false} SumShape(sizes: seq<Size>)
    ensures Sum(sizes).n == Total(sizes)
    ensures Sum(sizes).Constant? <==> forall i :: 0 <= i < |sizes| ==> sizes[i].Constant?
  {
    if |sizes| > 0 {
      var init := sizes[..|sizes| - 1];
      SumShape(init);
      assert forall i :: 0 <= i < |init| ==> init[i] == sizes[i];
    }
  }

  // ---------------------------------------------------------------
  // Records: `expand_field!(@size ...)` and the final comparison
  // ---------------------------------------------------------------

  /**
   * The size a struct or enum variant reports for fields of sizes
   * `sizes`: the total, constant exactly when the dynamic fields add
   * nothing.
   */
  function RecordSizeOf(sizes: seq<Size>): (r: Size)
    ensures r.n == Total(sizes)
  {
    if ConstantPart(sizes) == Total(sizes) then Constant(Total(sizes)) else Dynamic(Total(sizes))
  }

  /**
   * `size_owned` of the struct and enum macros: a constant field adds to
   * both counters, a dynamic one to the dynamic counter only; equal
   * counters give a constant size.
   */
  method RecordSize(sizes: seq<Size>) returns (r: Size)
    ensures r == RecordSizeOf(sizes)
    ensures r.Constant? <==> forall i :: 0 <= i < |sizes| && sizes[i].Dynamic? ==> sizes[i].n == 0
  {
    var constantCounter: nat := 0;
    var dynamicCounter: nat := 0;
    for i := 0 to |sizes|
      invariant constantCounter == ConstantPart(sizes[..i])
      invariant dynamicCounter == Total(sizes[..i])
    {
      assert sizes[..i + 1][..i] == sizes[..i];
      match sizes[i]
      case Constant(x) =>
        constantCounter := constantCounter + x;
        dynamicCounter := dynamicCounter + x;
      case Dynamic(x) =>
        dynamicCounter := dynamicCounter + x;
    }
    assert sizes[..|sizes|] == sizes;
    ConstantPartBounded(sizes);
    if constantCounter == dynamicCounter {
      r := Constant(constantCounter);
    } else {
      r := Dynamic(dynamicCounter);
    }
  }

  /**
   * The counters agree with folding the fields with `Add` except when a
   * dynamic field contributes nothing: then the record calls itself
   * constant although `Add` would not.
   */
  lemma RecordSizeVersusAdd(sizes: seq<Size>)
    ensures RecordSizeOf(sizes) == Sum(sizes) <==>
              (forall i :: 0 <= i < |sizes| ==> sizes[i].Constant?)
              || (exists i :: 0 <= i < |sizes| && sizes[i].Dynamic? && sizes[i].n > 0)
  {
    ConstantPartBounded(sizes);
    SumShape(sizes);
  }

  // ---------------------------------------------------------------
  // `Vec<T>` and `[T; N]`: stop at the first constant element
  // ---------------------------------------------------------------

  /** The index of the first size reported as constant, or `|sizes|`. */
  function FirstConstant(sizes: seq<Size>): (i: nat)
    ensures i <= |sizes|
    ensures i < |sizes| ==> sizes[i].Constant?
    ensures forall j :: 0 <= j < i ==> sizes[j].Dynamic?
  {
    if |sizes| == 0 then 0
    else if sizes[0].Constant? then 0
    else 1 + FirstConstant(sizes[1..])
  }

  /** `[T; N]::size` for elements of sizes `sizes`. */
  function ArraySizeOf(sizes: seq<Size>): Size
  {
    var i := FirstConstant(sizes);
    if i < |sizes| then Constant(sizes[i].n * |sizes|) else Dynamic(Total(sizes))
  }

  /** `Vec<T>::size` for elements of sizes `sizes` and a count prefix of `prefix` bytes. */
  function VecSizeOf(sizes: seq<Size>, prefix: nat): (r: Size)
    ensures r.Dynamic?
  {
    var i := FirstConstant(sizes);
    if i < |sizes| then Dynamic(sizes[i].n * |sizes| + prefix) else Dynamic(prefix + Total(sizes))
  }

  /** `[T; N]::size`: sums dynamic element sizes until an element reports a constant one. */
  method ArraySize(sizes: seq<Size>) returns (r: Size)
    ensures r == ArraySizeOf(sizes)
  {
    var dynamicCounter: nat := 0;
    for i := 0 to |sizes|
      invariant i <= FirstConstant(sizes)
      invariant dynamicCounter == Total(sizes[..i])
    {
      assert sizes[..i + 1][..i] == sizes[..i];
      match sizes[i]
      case Constant(x) =>
        return Constant(x * |sizes|);
      case Dynamic(x) =>
        dynamicCounter := dynamicCounter + x;
    }
    assert sizes[..|sizes|] == sizes;
    return Dynamic(dynamicCounter);
  }

  /** `Vec<T>::size`: the count prefix, then as `ArraySize` but scaled by the length. */
  method VecSize(sizes: seq<Size>, prefix: nat) returns (r: Size)
    ensures r == VecSizeOf(sizes, prefix)
  {
    var dynamicCounter: nat := prefix;
    for i := 0 to |sizes|
      invariant i <= FirstConstant(sizes)
      invariant dynamicCounter == prefix + Total(sizes[..i])
    {
      assert sizes[..i + 1][..i] == sizes[..i];
      match sizes[i]
      case Constant(x) =>
        return Dynamic(x * |sizes| + prefix);
      case Dynamic(x) =>
        dynamicCounter := dynamicCounter + x;
    }
    assert sizes[..|sizes|] == sizes;
    return Dynamic(dynamicCounter);
  }

  /**
   * Elements whose constant sizes all agree with every element's size: what
   * the short cut of `Vec<T>` and `[T; N]` takes for granted.
   */
  predicate Uniform(sizes: seq<Size>)
  {
    forall i, j :: 0 <= i < |sizes| && 0 <= j < |sizes| && sizes[i].Constant? ==> sizes[j].n == sizes[i].n
  }

  lemma {:induction false} TotalOfEqual(sizes: seq<Size>, x: nat)
    requires forall j :: 0 <= j < |sizes| ==> sizes[j].n == x
    ensures Total(sizes) == x * |sizes|
  {
    if |sizes| > 0 {
      TotalOfEqual(sizes[..|sizes| - 1], x);
    }
  }

  /** On uniform elements the short cut is exact: both sizes count every element's bytes. */
  lemma ShortCutExact(sizes: seq<Size>, prefix: nat)
    requires Uniform(sizes)
    ensures ArraySizeOf(sizes).n == Total(sizes)
    ensures VecSizeOf(sizes, prefix).n == prefix + Total(sizes)
  {
    var i := FirstConstant(sizes);
    if i < |sizes| {
      TotalOfEqual(sizes, sizes[i].n);
    }
  }

  /** An array of zero elements is `Dynamic(0)`, and one of constant elements is constant. */
  lemma ArraySizeShapes(sizes: seq<Size>)
    ensures |sizes| == 0 ==> ArraySizeOf(sizes) == Dynamic(0)
    ensures |sizes| > 0 && sizes[0].Constant? ==> ArraySizeOf(sizes) == Constant(sizes[0].n * |sizes|)
    ensures (forall j :: 0 <= j < |sizes| ==> sizes[j].Dynamic?) ==> ArraySizeOf(sizes) == Dynamic(Total(sizes))
  {
  }
}
