/** The arena every entity of cannon.py lives in, and the integer arithmetic that
    stands for the source's float-then-int() conversions. */
module Arena {

  /** A two-element coordinate or velocity list, as the source's `[x, y]` lists. */
  type Vec = s: seq<int> | |s| == 2 witness [0, 0]

  /** SCREEN_SIZE of the source: width 800, height 600, y grows downwards. */
  const ScreenSize: Vec := [800, 600]

  datatype Option<T> = None | Some(value: T)

  function Abs(x: int): (r: nat)
    ensures r == x || r == -x
  {
    if x < 0 then -x else x
  }

  /** Integer division that truncates toward zero, as Python's `int()` does to a
      float quotient (Dafny's own `/` is Euclidean). */
  function TruncDiv(a: int, b: int): (q: int)
    requires b > 0
    ensures Abs(q) == Abs(a) / b
    ensures a >= 0 ==> q >= 0
    ensures a <= 0 ==> q <= 0
  {
    DivOfNatural(Abs(a), b);
    if a >= 0 then Abs(a) / b else -(Abs(a) / b)
  }

  /** Euclidean division of a natural number by a positive one is natural. */
  lemma DivOfNatural(n: nat, b: int)
    requires b > 0
    ensures n / b >= 0
  {
  }

  /** `int(v * 0.8)` negated: the velocity component normal to a wall after an
      inelastic bounce (refl_ort = 0.8). */
  function Ort(v: int): int
  {
    -TruncDiv(4 * v, 5)
  }

  /** `int(v * 0.9)`: the velocity component parallel to a wall after a bounce
      (refl_par = 0.9). */
  function Par(v: int): int
  {
    TruncDiv(9 * v, 10)
  }

  /** The normal component flips its sign (or becomes 0) and keeps exactly
      four fifths of its magnitude, rounded down. */
  lemma OrtFlipsAndDamps(v: int)
    ensures Abs(Ort(v)) == 4 * Abs(v) / 5
    ensures v > 0 ==> Ort(v) <= 0 && Abs(Ort(v)) < v
    ensures v < 0 ==> Ort(v) >= 0 && Abs(Ort(v)) < -v
    ensures v == 0 ==> Ort(v) == 0
  {
    assert Abs(4 * v) == 4 * Abs(v);
  }

  /** The parallel component keeps its sign (or becomes 0) and keeps nine
      tenths of its magnitude, rounded down. */
  lemma ParKeepsSignAndDamps(v: int)
    ensures Abs(Par(v)) == 9 * Abs(v) / 10
    ensures v > 0 ==> Par(v) >= 0 && Par(v) < v
    ensures v < 0 ==> Par(v) <= 0 && Par(v) > v
    ensures v == 0 ==> Par(v) == 0
  {
    assert Abs(9 * v) == 9 * Abs(v);
  }

  /** Neither bounce factor ever makes a velocity component larger. */
  lemma BounceNeverGrows(v: int)
    ensures Abs(Ort(v)) <= Abs(v) && Abs(Par(v)) <= Abs(v)
  {
    OrtFlipsAndDamps(v);
    ParKeepsSignAndDamps(v);
  }
}
