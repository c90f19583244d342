// Values shared by the whole pipeline: a GPS fix, the optional and
// floating-point wrappers the Swift code relies on, the abstract distance
// metric, and the order-preserving subsequence relation used to state what
// the rolling buffers keep.
module Fixes {

  datatype Option<T> = None | Some(value: T)

  /** A Swift `Double` as far as the model needs it: a finite value, or one of
      the non-finite values (NaN, +inf, -inf) that `isFinite` rejects. */
  datatype Float64 = Finite(value: real) | NonFinite

  /** One CLLocation. Timestamps are whole seconds on the same clock as `now`. */
  datatype Fix = Fix(
    latitude: real,
    longitude: real,
    altitude: real,
    horizontalAccuracy: real,  // meters; negative means invalid
    speed: real,               // meters per second; negative means invalid
    timestamp: int)

  /** `b.distance(from: a)` is geodesy on doubles; the model only knows that it
      is never negative. `d(b, a)` is the distance of `b` from `a`. */
  type Metric = d: (Fix, Fix) -> real | forall a: Fix, b: Fix :: d(a, b) >= 0.0
    witness (a: Fix, b: Fix) => 0.0

  /** CLAuthorizationStatus. */
  datatype AuthorizationStatus =
    | NotDetermined
    | Restricted
    | Denied
    | AuthorizedAlways
    | AuthorizedWhenInUse

  predicate IsAuthorized(status: AuthorizationStatus) {
    status == AuthorizedWhenInUse || status == AuthorizedAlways
  }

  /** `a` is `b` with some elements left out and the rest in their order
      (matched greedily from the back). */
  predicate IsSubseq<T(==)>(a: seq<T>, b: seq<T>)
    decreases |b|
  {
    a == [] ||
    (b != [] &&
     if a[|a| - 1] == b[|b| - 1] then IsSubseq(a[..|a| - 1], b[..|b| - 1])
     else IsSubseq(a, b[..|b| - 1]))
  }

  lemma {:induction false} SubseqDropLast<T>(a: seq<T>, b: seq<T>)
    requires IsSubseq(a, b) && a != []
    ensures IsSubseq(a[..|a| - 1], b)
    decreases |b|, 0
  {
    var a' := a[..|a| - 1];
    if a' != [] {
      if a[|a| - 1] == b[|b| - 1] {
        SubseqExtend(a', b[..|b| - 1], b[|b| - 1]);
        assert b[..|b| - 1] + [b[|b| - 1]] == b;
      } else {
        SubseqDropLast(a, b[..|b| - 1]);
        SubseqExtend(a', b[..|b| - 1], b[|b| - 1]);
        assert b[..|b| - 1] + [b[|b| - 1]] == b;
      }
    }
  }

  /** Appending to the larger sequence keeps the relation. */
  lemma {:induction false} SubseqExtend<T>(a: seq<T>, b: seq<T>, x: T)
    requires IsSubseq(a, b)
    ensures IsSubseq(a, b + [x])
    decreases |b|, 1
  {
    var b' := b + [x];
    assert b'[..|b'| - 1] == b;
    if a != [] && a[|a| - 1] == x {
      SubseqDropLast(a, b);
    }
  }

  lemma {:induction false} SubseqReflexive<T>(a: seq<T>)
    ensures IsSubseq(a, a)
    decreases |a|
  {
    if a != [] {
      SubseqReflexive(a[..|a| - 1]);
    }
  }

  /** Dropping a prefix of the smaller sequence keeps the relation. */
  lemma {:induction false} SubseqDropPrefix<T>(a: seq<T>, b: seq<T>, k: nat)
    requires IsSubseq(a, b) && k <= |a|
    ensures IsSubseq(a[k..], b)
    decreases |b|
  {
    if k < |a| {
      var a' := a[k..];
      assert a'[|a'| - 1] == a[|a| - 1];
      assert a'[..|a'| - 1] == a[..|a| - 1][k..];
      if a[|a| - 1] == b[|b| - 1] {
        SubseqDropPrefix(a[..|a| - 1], b[..|b| - 1], k);
      } else {
        SubseqDropPrefix(a, b[..|b| - 1], k);
      }
    }
  }

  lemma {:induction false} SubseqMembers<T>(a: seq<T>, b: seq<T>)
    requires IsSubseq(a, b)
    ensures forall x :: x in a ==> x in b
    decreases |b|
  {
    if a != [] {
      var b' := b[..|b| - 1];
      assert b == b' + [b[|b| - 1]];
      if a[|a| - 1] == b[|b| - 1] {
        SubseqMembers(a[..|a| - 1], b');
        assert a == a[..|a| - 1] + [a[|a| - 1]];
      } else {
        SubseqMembers(a, b');
      }
    }
  }

  /** The newest `n` entries of `s` (all of `s` when it is shorter):
      `Array(s.suffix(n))`, and what `removeFirst(count - n)` leaves. */
  function KeepNewest<T>(s: seq<T>, n: nat): (r: seq<T>)
    ensures |r| == if |s| > n then n else |s|
    ensures forall i :: 0 <= i < |r| ==> r[i] == s[|s| - |r| + i]
  {
    if |s| > n then s[|s| - n..] else s
  }

  lemma KeepNewestSubseq<T>(s: seq<T>, n: nat)
    ensures IsSubseq(KeepNewest(s, n), s)
  {
    SubseqReflexive(s);
    if |s| > n {
      SubseqDropPrefix(s, s, |s| - n);
    }
  }

  /** Trimming to the newest `n`, appending, and trimming again is the same
      as appending and trimming once. */
  lemma KeepNewestAppend<T>(y: seq<T>, z: seq<T>, n: nat)
    ensures KeepNewest(KeepNewest(y, n) + z, n) == KeepNewest(y + z, n)
  {
    if |y| > n {
      var k := y[|y| - n..];
      assert KeepNewest(y, n) == k;
      var lhs := (k + z)[|z|..];
      var rhs := (y + z)[|y| + |z| - n..];
      assert KeepNewest(k + z, n) == lhs;
      assert KeepNewest(y + z, n) == rhs;
      forall i | 0 <= i < n ensures lhs[i] == rhs[i] {
        if |z| + i < n {
          assert lhs[i] == k[|z| + i] == y[|y| - n + |z| + i];
          assert rhs[i] == y[|y| - n + |z| + i];
        } else {
          assert lhs[i] == z[|z| + i - n];
          assert rhs[i] == z[|z| + i - n];
        }
      }
    }
  }
}
