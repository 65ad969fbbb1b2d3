/** Mutation operators. The random draws are inputs: `random.random()` values are the gates and
    the uniform draws, `np.random.normal` values are the Gaussian noise. */
module Mutation {
  /** A `random.random()` draw. */
  type Unit = u: real | 0.0 <= u <= 1.0

  /** The mutation width of the quantum backend's `mutate`. */
  const SIGMA: real := 3.0
  /** The mutation width of the top-level program's `mutate`. */
  const LEGACY_SIGMA: real := 0.05
  /** The noise scale of `mutate_classical`. */
  const CLASSICAL_SIGMA: real := 1.0

  function Abs(x: real): real {
    if x < 0.0 then -x else x
  }

  /** `w * u` for a draw `u`: a value between 0 and `w`. */
  function Scale(w: real, u: Unit): (v: real)
    ensures 0.0 <= w ==> 0.0 <= v <= w
    ensures w <= 0.0 ==> w <= v <= 0.0
  {
    assert w - w * u == w * (1.0 - u);
    w * u
  }

  /** `random.uniform(lo, hi)`, which is `lo + (hi - lo) * random()`: a value between the bounds. */
  function Uniform(lo: real, hi: real, u: Unit): (v: real)
    ensures lo <= hi ==> lo <= v <= hi
    ensures hi <= lo ==> hi <= v <= lo
  {
    lo + Scale(hi - lo, u)
  }

  /** `random.uniform(-sigma, sigma)`: a shift no larger than the width. */
  function Jitter(sigma: real, u: Unit): (v: real)
    ensures -Abs(sigma) <= v <= Abs(sigma)
  {
    Uniform(-sigma, sigma, u)
  }

  /** `mutate(angles, chance, sigma)`: a fresh list in which each angle whose gate draw is at most
      `chance` gets `random.uniform(-sigma, sigma)` added and every other angle is copied. */
  function Mutate(angles: seq<real>, gate: nat -> Unit, draw: nat -> Unit, chance: real, sigma: real): (r: seq<real>)
    ensures |r| == |angles|
    ensures forall i :: 0 <= i < |r| ==> Abs(r[i] - angles[i]) <= Abs(sigma)
    ensures forall i :: 0 <= i < |r| && gate(i) > chance ==> r[i] == angles[i]
  {
    var r := seq(|angles|, i requires 0 <= i < |angles| =>
      if gate(i) <= chance then angles[i] + Jitter(sigma, draw(i)) else angles[i]);
    assert forall i :: 0 <= i < |r| ==> -Abs(sigma) <= r[i] - angles[i] <= Abs(sigma) by {
      forall i | 0 <= i < |r| ensures -Abs(sigma) <= r[i] - angles[i] <= Abs(sigma) {
        var j := Jitter(sigma, draw(i));
      }
    }
    r
  }

  /** With a negative chance no gate opens, and with a zero width every draw adds nothing: in
      both cases the child is a copy of its parent. */
  lemma MutateIdentity(angles: seq<real>, gate: nat -> Unit, draw: nat -> Unit, chance: real, sigma: real)
    requires chance < 0.0 || sigma == 0.0
    ensures Mutate(angles, gate, draw, chance, sigma) == angles
  {
    var r := Mutate(angles, gate, draw, chance, sigma);
    forall i | 0 <= i < |r| ensures r[i] == angles[i] {
      if sigma == 0.0 {
        assert Abs(r[i] - angles[i]) <= 0.0;
      }
    }
  }

  /** The product of a layer shape's dimensions. */
  function Product(shape: seq<nat>): nat {
    if |shape| == 0 then 1 else shape[0] * Product(shape[1..])
  }

  /** One weight array: its shape and its entries in row-major order. */
  datatype Layer = Layer(shape: seq<nat>, values: seq<real>)

  predicate WellShaped(l: Layer) {
    |l.values| == Product(l.shape)
  }

  /** `mutate_classical`: one gate draw per layer; a layer whose gate is at most `chance` gets
      `sigma` times Gaussian noise added to every entry, any other layer is copied. */
  function MutateClassical(layers: seq<Layer>, gate: nat -> Unit, noise: (nat, nat) -> real, chance: real, sigma: real)
    : (r: seq<Layer>)
    ensures |r| == |layers|
    ensures forall i :: 0 <= i < |r| ==> r[i].shape == layers[i].shape && |r[i].values| == |layers[i].values|
    ensures forall i :: 0 <= i < |r| && gate(i) > chance ==> r[i] == layers[i]
  {
    seq(|layers|, i requires 0 <= i < |layers| =>
      var l := layers[i];
      if gate(i) <= chance
      then Layer(l.shape, seq(|l.values|, k requires 0 <= k < |l.values| => l.values[k] + sigma * noise(i, k)))
      else l)
  }

  /** A mutated network is a network of the same architecture: every layer keeps its shape and
      its entry count still matches that shape. */
  lemma MutateClassicalKeepsShapes(layers: seq<Layer>, gate: nat -> Unit, noise: (nat, nat) -> real, chance: real, sigma: real)
    requires forall i :: 0 <= i < |layers| ==> WellShaped(layers[i])
    ensures var r := MutateClassical(layers, gate, noise, chance, sigma);
      |r| == |layers| && forall i :: 0 <= i < |r| ==> WellShaped(r[i]) && r[i].shape == layers[i].shape
  {
  }

  /** Two pi, as the double closest to it. */
  const TWO_PI: real := 6.283185307179586
  /** Half pi, as the double closest to it: the top-level program's starting angle. */
  const HALF_PI: real := 1.5707963267948966

  /** `angle % (2 * pi)` with Python's sign convention: the representative in `[0, 2 pi)` that
      differs from the angle by a whole number of turns. */
  function Normalize(angle: real): (r: real)
    ensures 0.0 <= r < TWO_PI
    ensures ((angle - r) / TWO_PI).Floor as real == (angle - r) / TWO_PI
  {
    var q := angle / TWO_PI;
    var turns := q.Floor as real;
    assert turns <= q < turns + 1.0;
    assert q * TWO_PI == angle;
    assert turns * TWO_PI <= angle < turns * TWO_PI + TWO_PI;
    var r := angle - turns * TWO_PI;
    assert (angle - r) / TWO_PI == turns;
    r
  }

  /** Normalising twice is normalising once, and an angle already in `[0, 2 pi)` is kept. */
  lemma NormalizeIdempotent(angle: real)
    ensures 0.0 <= angle < TWO_PI ==> Normalize(angle) == angle
    ensures Normalize(Normalize(angle)) == Normalize(angle)
  {
    var r := Normalize(angle);
    assert (r / TWO_PI).Floor == 0 by {
      assert 0.0 <= r / TWO_PI < 1.0;
    }
    if 0.0 <= angle < TWO_PI {
      assert (angle / TWO_PI).Floor == 0 by {
        assert 0.0 <= angle / TWO_PI < 1.0;
      }
    }
  }

  /** `for k in range(len(angles)): angles[k] = angles[k] % (2 * pi)` on a copy. */
  function NormalizeAll(angles: seq<real>): (r: seq<real>)
    ensures |r| == |angles|
    ensures forall i :: 0 <= i < |r| ==> 0.0 <= r[i] < TWO_PI
  {
    seq(|angles|, i requires 0 <= i < |angles| => Normalize(angles[i]))
  }
}
