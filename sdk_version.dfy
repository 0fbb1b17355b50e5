// The SDK compatibility interval and its two combinators (src/commands/version/sdk_version.rs).
module SdkVersion {
  import opened Wrappers

  /**
    * Supported SDK versions: every version from `minSdkVersion` up to `maxSdkVersion`
    * inclusive, with no upper bound when `maxSdkVersion` is absent. Rust's `u64` is
    * modelled by `nat`: the values are only ever combined with `max` and `min`.
    */
  datatype SdkVersionOut = SdkVersionOut(minSdkVersion: nat, maxSdkVersion: Option<nat>)

  /** The versions an interval admits. */
  predicate Contains(x: SdkVersionOut, v: nat)
  {
    x.minSdkVersion <= v && (x.maxSdkVersion.Some? ==> v <= x.maxSdkVersion.value)
  }

  /**
    * `x` is at least as strict as `y`: its lower bound is no lower and, when `y` has an
    * upper bound, `x` has one that is no higher. This is the order in which intersection
    * is the greatest lower bound and union the least upper bound.
    */
  predicate AtLeastAsStrict(x: SdkVersionOut, y: SdkVersionOut)
  {
    && x.minSdkVersion >= y.minSdkVersion
    && (y.maxSdkVersion.Some? ==> x.maxSdkVersion.Some? && x.maxSdkVersion.value <= y.maxSdkVersion.value)
  }

  /** The derived `Default`: the interval admitting every version. */
  function Default(): (r: SdkVersionOut)
    ensures forall v: nat :: Contains(r, v)
    ensures forall x :: AtLeastAsStrict(x, r)
  {
    SdkVersionOut(0, None)
  }

  /** `SdkVersionOut::new`: every version from `defaultVersion` on. */
  function New(defaultVersion: nat): (r: SdkVersionOut)
    ensures forall v: nat :: Contains(r, v) <==> defaultVersion <= v
  {
    SdkVersionOut(defaultVersion, None)
  }

  /** The tighter of two optional upper bounds; absent only when both are. */
  function MinimumOfMax(lhs: Option<nat>, rhs: Option<nat>): (r: Option<nat>)
    ensures r.None? <==> lhs.None? && rhs.None?
    ensures r.Some? ==> r == lhs || r == rhs
    ensures lhs.Some? ==> r.Some? && r.value <= lhs.value
    ensures rhs.Some? ==> r.Some? && r.value <= rhs.value
  {
    match (lhs, rhs)
    case (Some(l), Some(r)) => Some(if l <= r then l else r)
    case (Some(l), None) => Some(l)
    case (None, Some(r)) => Some(r)
    case (None, None) => None
  }

  /** Intersection: admits exactly the versions both intervals admit, and is their greatest lower bound. */
  function Intersection(lhs: SdkVersionOut, rhs: SdkVersionOut): (r: SdkVersionOut)
    ensures forall v: nat :: Contains(r, v) <==> Contains(lhs, v) && Contains(rhs, v)
    ensures AtLeastAsStrict(r, lhs) && AtLeastAsStrict(r, rhs)
    ensures forall x :: AtLeastAsStrict(x, lhs) && AtLeastAsStrict(x, rhs) ==> AtLeastAsStrict(x, r)
  {
    SdkVersionOut(
      if lhs.minSdkVersion >= rhs.minSdkVersion then lhs.minSdkVersion else rhs.minSdkVersion,
      MinimumOfMax(lhs.maxSdkVersion, rhs.maxSdkVersion))
  }

  /**
    * Union: admits every version either interval admits, bounded above only when both
    * are, and is the least upper bound of the two.
    */
  function Union(lhs: SdkVersionOut, rhs: SdkVersionOut): (r: SdkVersionOut)
    ensures forall v: nat :: Contains(lhs, v) || Contains(rhs, v) ==> Contains(r, v)
    ensures AtLeastAsStrict(lhs, r) && AtLeastAsStrict(rhs, r)
    ensures forall x :: AtLeastAsStrict(lhs, x) && AtLeastAsStrict(rhs, x) ==> AtLeastAsStrict(r, x)
    ensures r.maxSdkVersion.None? <==> lhs.maxSdkVersion.None? || rhs.maxSdkVersion.None?
  {
    SdkVersionOut(
      if lhs.minSdkVersion <= rhs.minSdkVersion then lhs.minSdkVersion else rhs.minSdkVersion,
      match (lhs.maxSdkVersion, rhs.maxSdkVersion)
      case (Some(l), Some(r)) => Some(if l >= r then l else r)
      case _ => None)
  }

  lemma IntersectionCommutative(a: SdkVersionOut, b: SdkVersionOut)
    ensures Intersection(a, b) == Intersection(b, a)
  {
  }

  lemma IntersectionAssociative(a: SdkVersionOut, b: SdkVersionOut, c: SdkVersionOut)
    ensures Intersection(Intersection(a, b), c) == Intersection(a, Intersection(b, c))
  {
  }

  lemma IntersectionIdempotent(a: SdkVersionOut)
    ensures Intersection(a, a) == a
  {
  }

  lemma UnionCommutative(a: SdkVersionOut, b: SdkVersionOut)
    ensures Union(a, b) == Union(b, a)
  {
  }

  lemma UnionIdempotent(a: SdkVersionOut)
    ensures Union(a, a) == a
  {
  }

  lemma Absorption(a: SdkVersionOut, b: SdkVersionOut)
    ensures Intersection(a, Union(a, b)) == a
    ensures Union(a, Intersection(a, b)) == a
  {
  }

  /** Intersecting with `Default()` changes nothing: it is the identity of the fold. */
  lemma IntersectionDefault(a: SdkVersionOut)
    ensures Intersection(Default(), a) == a && Intersection(a, Default()) == a
  {
  }

  /** Intersecting never loosens the lower bound. */
  lemma IntersectionKeepsMinimum(a: SdkVersionOut, b: SdkVersionOut, floor: nat)
    requires a.minSdkVersion >= floor
    ensures Intersection(a, b).minSdkVersion >= floor
  {
  }

  /** The `Iterator::fold(acc, intersection)` over a list of intervals. */
  function FoldIntersection(acc: SdkVersionOut, vs: seq<SdkVersionOut>): SdkVersionOut
    decreases |vs|
  {
    if vs == [] then acc else FoldIntersection(Intersection(acc, vs[0]), vs[1..])
  }

  /** A folded intersection admits exactly the versions the seed and every element admit. */
  lemma {:induction false} FoldIntersectionContains(acc: SdkVersionOut, vs: seq<SdkVersionOut>, v: nat)
    ensures Contains(FoldIntersection(acc, vs), v) <==> Contains(acc, v) && forall k :: 0 <= k < |vs| ==> Contains(vs[k], v)
    decreases |vs|
  {
    if vs != [] {
      FoldIntersectionContains(Intersection(acc, vs[0]), vs[1..], v);
      assert forall k :: 1 <= k < |vs| ==> vs[k] == vs[1..][k - 1];
    }
  }

  /** A folded intersection is at least as strict as the seed and as every element. */
  lemma {:induction false} FoldIntersectionBound(acc: SdkVersionOut, vs: seq<SdkVersionOut>)
    ensures AtLeastAsStrict(FoldIntersection(acc, vs), acc)
    ensures forall k :: 0 <= k < |vs| ==> AtLeastAsStrict(FoldIntersection(acc, vs), vs[k])
    decreases |vs|
  {
    if vs != [] {
      FoldIntersectionBound(Intersection(acc, vs[0]), vs[1..]);
      assert forall k :: 1 <= k < |vs| ==> vs[k] == vs[1..][k - 1];
    }
  }
}
