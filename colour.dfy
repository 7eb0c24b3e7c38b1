// RGB colour values with unclamped channels, component-wise arithmetic and
// the lenient tolerance equality.

module Colours {
  import opened Util

  datatype Colour = Colour(red: real, green: real, blue: real)

  /** `colour`: the channels stored as given, without clamping. */
  function ColourOf(red: real, green: real, blue: real): (c: Colour)
    ensures c.red == red && c.green == green && c.blue == blue
  {
    Colour(red, green, blue)
  }

  /** BLACK is used by the canvas; taken here as colour(0, 0, 0). */
  const Black: Colour := ColourOf(0.0, 0.0, 0.0)

  /** `Add`: channel by channel; subtracting b again gives a back. */
  function Add(a: Colour, b: Colour): (r: Colour)
    ensures Sub(r, b) == a
  {
    Colour(a.red + b.red, a.green + b.green, a.blue + b.blue)
  }

  /** `Sub`: channel by channel; subtracting BLACK changes nothing and a
      colour minus itself is BLACK. */
  function Sub(a: Colour, b: Colour): (r: Colour)
    ensures b == Black ==> r == a
    ensures a == b ==> r == Black
  {
    Colour(a.red - b.red, a.green - b.green, a.blue - b.blue)
  }

  /** `Mul<f64>`. */
  function Scale(a: Colour, k: real): (r: Colour)
    ensures k == 1.0 ==> r == a
    ensures k == 0.0 ==> r == Black
  {
    Colour(a.red * k, a.green * k, a.blue * k)
  }

  /** `Mul<i32>`: the same as scaling by the i32 converted to a real. */
  function ScaleI(a: Colour, k: i32): (r: Colour)
    ensures r == Scale(a, k as real)
  {
    var f := k as real;
    Colour(a.red * f, a.green * f, a.blue * f)
  }

  /** `Mul<Colour>`: the channel-wise (Hadamard) product. */
  function Mul(a: Colour, b: Colour): (r: Colour)
    ensures b == ColourOf(1.0, 1.0, 1.0) ==> r == a
    ensures b == Black ==> r == Black
  {
    Colour(a.red * b.red, a.green * b.green, a.blue * b.blue)
  }

  /** `eq`: every channel "equal" under `a_equal_b`. */
  predicate Eq(a: Colour, b: Colour)
  {
    AEqualB(a.red, b.red) && AEqualB(a.blue, b.blue) && AEqualB(a.green, b.green)
  }

  /** `ne`: some channel not "equal"; exactly the negation of `eq`. */
  predicate Ne(a: Colour, b: Colour)
    ensures Ne(a, b) <==> !Eq(a, b)
  {
    !AEqualB(a.red, b.red) || !AEqualB(a.blue, b.blue) || !AEqualB(a.green, b.green)
  }

  /** `eq` holds exactly when each channel passes the tolerance compare. */
  lemma EqChannels(a: Colour, b: Colour)
    ensures Eq(a, b) <==> AEqualB(a.red, b.red) && AEqualB(a.green, b.green) && AEqualB(a.blue, b.blue)
  {
  }

  /** `eq` is reflexive. */
  lemma EqReflexive(a: Colour)
    ensures Eq(a, a)
  {
    AEqualBReflexive(a.red);
    AEqualBReflexive(a.green);
    AEqualBReflexive(a.blue);
  }

  /** `eq` is far weaker than it looks: every colour whose channels are no
      larger in magnitude than another's "equals" it, so black equals red,
      while red does not equal black. */
  lemma EqLenient(a: Colour, b: Colour)
    requires Abs(a.red) <= Abs(b.red) && Abs(a.green) <= Abs(b.green) && Abs(a.blue) <= Abs(b.blue)
    ensures Eq(a, b)
    ensures Eq(Black, ColourOf(1.0, 0.0, 0.0)) && !Eq(ColourOf(1.0, 0.0, 0.0), Black)
  {
  }

  /** Addition commutes, and a colour minus itself is black. */
  lemma AddSubProperties(a: Colour, b: Colour)
    ensures Add(a, b) == Add(b, a)
    ensures Sub(a, a) == Black
    ensures Sub(Add(a, b), b) == a
  {
  }

  /** The channel-wise product is commutative and associative, has white
      as its unit, and distributes over addition. */
  lemma MulProperties(a: Colour, b: Colour, c: Colour)
    ensures Mul(a, b) == Mul(b, a)
    ensures Mul(Mul(a, b), c) == Mul(a, Mul(b, c))
    ensures Mul(a, ColourOf(1.0, 1.0, 1.0)) == a
    ensures Mul(a, Add(b, c)) == Add(Mul(a, b), Mul(a, c))
  {
  }

  /** The worked examples of the colour tests (exact over the reals). */
  lemma ColourExamples()
    ensures Add(ColourOf(0.9, 0.6, 0.75), ColourOf(0.7, 0.1, 0.25)) == ColourOf(1.6, 0.7, 1.0)
    ensures Sub(ColourOf(0.9, 0.6, 0.75), ColourOf(0.7, 0.1, 0.25)) == ColourOf(0.2, 0.5, 0.5)
    ensures Mul(ColourOf(1.0, 0.2, 0.4), ColourOf(0.9, 1.0, 0.1)) == ColourOf(0.9, 0.2, 0.04)
    ensures ScaleI(ColourOf(0.2, 0.3, 0.4), 2) == ColourOf(0.4, 0.6, 0.8)
  {
  }
}
