/** The convolution by its response to kernels with one tap, and its rounding. */
module ConvolutionResponse {
  import opened Bits
  import opened Convolution

  /** A kernel with a 1 at `n` and zeros elsewhere. */
  ghost predicate OneTap(kernel: seq<real>, n: nat) {
    n < |kernel| && forall i :: 0 <= i < |kernel| ==> kernel[i] == if i == n then 1.0 else 0.0
  }

  lemma {:induction false} HOfTap(k: Conv, r: nat, c: nat, u: nat, n: nat)
    requires k.Ok() && r + 1 < k.height + k.Kh() && c < k.width && OneTap(k.hk, u) && n <= |k.hk|
    ensures n > 0 ==> Base(k, r, c) + (n - 1) * k.tap < |k.src|
    ensures 0 <= Base(k, r, c) + u * k.tap < |k.src|
    ensures HSum(k, Base(k, r, c), n) == if u < n then k.src[Base(k, r, c) + u * k.tap] as real else 0.0
    decreases n
  {
    Inside(k, r, c, u);
    NatProduct(u, k.tap);
    if n > 0 {
      Inside(k, r, c, n - 1);
      HOfTap(k, r, c, u, n - 1);
      Zero(k.src[Base(k, r, c) + (n - 1) * k.tap] as real, k.hk[n - 1]);
      hide Base, Conv.Ok;
    }
  }

  lemma Zero(x: real, h: real)
    ensures h == 0.0 ==> x * h == 0.0
    ensures h == 1.0 ==> x * h == x
  {
  }

  lemma {:induction false} VOfTap(k: Conv, j: nat, c: nat, v: nat, n: nat)
    requires k.Ok() && j < k.height && c < k.width && OneTap(k.vk, v) && n <= k.Kh()
    ensures VSum(k, j, c, n) == 0.5 + if v < n then H(k, j + v, c) else 0.0
    decreases n
  {
    hide H;
    if n > 0 {
      VOfTap(k, j, c, v, n - 1);
      Zero(H(k, j + n - 1, c), k.vk[n - 1]);
    }
  }

  /** With one tap in each kernel the output is the source, `v` rows down and `u` taps to the right of
      where the kernels are laid, within 0 and the maximum. */
  lemma OneTapShifts(k: Conv, j: nat, c: nat, max: nat, u: nat, v: nat)
    requires k.Ok() && j < k.height && c < k.width && OneTap(k.hk, u) && OneTap(k.vk, v)
    ensures var at := k.off + (j + v) * k.line + c * k.col + u * k.tap;
            && 0 <= at < |k.src|
            && Pixel(k, j, c, max) == if k.src[at] < 0 then 0 else if k.src[at] > max then max else k.src[at]
  {
    HOfTap(k, j + v, c, u, |k.hk|);
    VOfTap(k, j, c, v, k.Kh());
    var at := k.off + (j + v) * k.line + c * k.col + u * k.tap;
    Nearest(k.src[at] as real, max);
    hide HSum, VSum, Conv.Ok;
  }

  /** What is stored for `0.5 + x`: the nearest number of the range, and the larger one between two. */
  lemma Nearest(x: real, max: nat)
    ensures var r := Store(0.5 + x, max);
            && 0 <= r <= max
            && (x < -0.5 ==> r == 0) && (x > max as real - 0.5 ==> r == max)
            && (-0.5 <= x <= max as real - 0.5 ==> r as real - 0.5 <= x < r as real + 0.5)
  {
  }
}
