/**
 * Raw pixel memory: the unsigned bytes both adapters move with memset and
 * memcpy, the value-level meaning of those two calls, and the in-place
 * array versions of them.
 */
module Bytes {

  newtype byte = x: int | 0 <= x < 256

  /** n zero bytes: what memset(p, 0, n) leaves behind. */
  function Zeros(n: nat): (z: seq<byte>)
    ensures |z| == n
    ensures forall k :: 0 <= k < n ==> z[k] == 0
  {
    seq(n, _ => 0)
  }

  /** s with the bytes of t written over it from offset off on. */
  function Overwrite(s: seq<byte>, off: nat, t: seq<byte>): (r: seq<byte>)
    requires off + |t| <= |s|
    ensures |r| == |s|
  {
    s[..off] + t + s[off + |t|..]
  }

  /** Inside the window the bytes of t, outside it the bytes of s. */
  lemma OverwriteAt(s: seq<byte>, off: nat, t: seq<byte>)
    requires off + |t| <= |s|
    ensures forall k :: 0 <= k < |s| ==>
      Overwrite(s, off, t)[k] == if off <= k < off + |t| then t[k - off] else s[k]
  {
  }

  /** Writing u into the window of an earlier write t is the same as writing the patched t. */
  lemma {:induction false} OverwriteNested(s: seq<byte>, off: nat, t: seq<byte>, j: nat, u: seq<byte>)
    requires off + |t| <= |s| && j + |u| <= |t|
    ensures Overwrite(Overwrite(s, off, t), off + j, u) == Overwrite(s, off, Overwrite(t, j, u))
  {
    var lhs := Overwrite(Overwrite(s, off, t), off + j, u);
    var rhs := Overwrite(s, off, Overwrite(t, j, u));
    OverwriteAt(s, off, t);
    OverwriteAt(Overwrite(s, off, t), off + j, u);
    OverwriteAt(t, j, u);
    OverwriteAt(s, off, Overwrite(t, j, u));
    assert |lhs| == |rhs|;
    forall k | 0 <= k < |s|
      ensures lhs[k] == rhs[k]
    {
    }
  }

  /** Writing t and then u right behind it is one write of t + u. */
  lemma {:induction false} OverwriteAdjacent(s: seq<byte>, off: nat, t: seq<byte>, u: seq<byte>)
    requires off + |t| + |u| <= |s|
    ensures Overwrite(Overwrite(s, off, t), off + |t|, u) == Overwrite(s, off, t + u)
  {
    var lhs := Overwrite(Overwrite(s, off, t), off + |t|, u);
    var rhs := Overwrite(s, off, t + u);
    OverwriteAt(s, off, t);
    OverwriteAt(Overwrite(s, off, t), off + |t|, u);
    OverwriteAt(s, off, t + u);
    assert |lhs| == |rhs|;
    forall k | 0 <= k < |s|
      ensures lhs[k] == rhs[k]
    {
    }
  }

  /** Writing t right behind a prefix x replaces the front of what follows x. */
  lemma OverwriteSplice(x: seq<byte>, y: seq<byte>, t: seq<byte>)
    requires |t| <= |y|
    ensures Overwrite(x + y, |x|, t) == x + t + y[|t|..]
  {
    OverwriteAt(x + y, |x|, t);
    var lhs, rhs := Overwrite(x + y, |x|, t), x + t + y[|t|..];
    assert |lhs| == |rhs|;
    forall k | 0 <= k < |lhs|
      ensures lhs[k] == rhs[k]
    {
    }
  }

  /** Writing line into the zeros behind done leaves line, padded with zeros
      to w bytes, and then the remaining zeros. */
  lemma SpliceIntoZeros(done: seq<byte>, line: seq<byte>, w: nat, tail: nat)
    requires |line| <= w
    ensures |done| + |line| <= |done + Zeros(w + tail)|
    ensures Overwrite(done + Zeros(w + tail), |done|, line) == done + (line + Zeros(w - |line|)) + Zeros(tail)
  {
    OverwriteSplice(done, Zeros(w + tail), line);
    assert Zeros(w + tail)[|line|..] == Zeros(w - |line|) + Zeros(tail);
  }

  lemma SliceOfFront<T>(x: seq<T>, y: seq<T>, lo: nat, hi: nat)
    requires lo <= hi <= |x|
    ensures (x + y)[lo..hi] == x[lo..hi]
  {
  }

  lemma SliceOfBack<T>(x: seq<T>, y: seq<T>)
    ensures (x + y)[|x|..|x| + |y|] == y
  {
  }

  /** memset(a + off, 0, n). */
  method Fill(a: array<byte>, off: nat, n: nat)
    requires off + n <= a.Length
    modifies a
    ensures a[..] == Overwrite(old(a[..]), off, Zeros(n))
  {
    var k := 0;
    while k < n
      invariant k <= n
      invariant forall j :: 0 <= j < a.Length ==> a[j] == if off <= j < off + k then 0 else old(a[j])
    {
      a[off + k] := 0;
      k := k + 1;
    }
    OverwriteAt(old(a[..]), off, Zeros(n));
    assert forall j :: 0 <= j < a.Length ==> a[..][j] == Overwrite(old(a[..]), off, Zeros(n))[j];
  }

  /** memcpy(a + off, src, |src|). */
  method Copy(a: array<byte>, off: nat, src: seq<byte>)
    requires off + |src| <= a.Length
    modifies a
    ensures a[..] == Overwrite(old(a[..]), off, src)
  {
    var k := 0;
    while k < |src|
      invariant k <= |src|
      invariant forall j :: 0 <= j < a.Length ==> a[j] == if off <= j < off + k then src[j - off] else old(a[j])
    {
      a[off + k] := src[k];
      k := k + 1;
    }
    OverwriteAt(old(a[..]), off, src);
    assert forall j :: 0 <= j < a.Length ==> a[..][j] == Overwrite(old(a[..]), off, src)[j];
  }

  /** k strides of width bytes: the offset of row (or plane) k. It is written
      as repeated addition so that offset reasoning stays linear; StrideIsProduct
      ties it to k * width. */
  function Stride(k: nat, width: nat): (r: nat)
    decreases k
  {
    if k == 0 then 0 else Stride(k - 1, width) + width
  }

  lemma {:induction false} StrideIsProduct(k: nat, width: nat)
    ensures Stride(k, width) == k * width
    decreases k
  {
    if k > 0 {
      StrideIsProduct(k - 1, width);
      assert k * width == (k - 1) * width + width;
    }
  }

  lemma {:induction false} StrideMonotone(j: nat, k: nat, width: nat)
    requires j <= k
    ensures Stride(j, width) <= Stride(k, width)
    decreases k
  {
    if j < k {
      StrideMonotone(j, k - 1, width);
    }
  }

  lemma MulRotate(a: nat, b: nat, c: nat)
    ensures a * b * c == b * (a * c)
  {
  }

  /** Column c of row r lies inside the first k rows, and so does all of row r. */
  lemma StrideInside(r: nat, c: nat, k: nat, width: nat)
    requires r < k && c < width
    ensures Stride(r, width) + c < Stride(k, width)
    ensures Stride(r + 1, width) <= Stride(k, width)
  {
    StrideMonotone(r + 1, k, width);
  }
}
