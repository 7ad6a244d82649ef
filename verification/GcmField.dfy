/** Multiplication of blocks (section 6.3 of NIST SP 800-38D), and that it is the product of a commutative ring. */
module GcmField {

  /** A string of bits, the leftmost (bit 127 of the bit set) first. */
  type Bits = x: seq<bool> | |x| == 128 witness seq(128, _ => false)

  function Nil(): Bits {
    seq(128, _ => false)
  }

  /** Addition in the field: exclusive or. */
  function Add(x: Bits, y: Bits): Bits {
    seq(128, i requires 0 <= i < 128 => x[i] != y[i])
  }

  // ----- multiplication (algorithm 1)

  /** The constant R: 11100001 and 120 zeros. */
  function Reduction(): Bits {
    seq(128, i => i == 0 || i == 1 || i == 2 || i == 7)
  }

  function ShiftRight(v: Bits): Bits {
    seq(128, i requires 0 <= i < 128 => i > 0 && v[i - 1])
  }

  /** One step of V. */
  function Next(v: Bits): Bits {
    if v[127] then Add(ShiftRight(v), Reduction()) else ShiftRight(v)
  }

  function ChosenBits(bit: bool, v: Bits): Bits {
    if bit then v else Nil()
  }

  /** What bits `k` and on of `x` contribute, where `v` is the other factor after `k` steps. */
  function Product(x: Bits, v: Bits, k: nat): Bits
    requires k <= 128
    decreases 128 - k
  {
    if k == 128 then Nil() else Add(ChosenBits(x[k], v), Product(x, Next(v), k + 1))
  }

  function Multiply(x: Bits, y: Bits): Bits {
    Product(x, y, 0)
  }

  lemma NotChosen(v: Bits)
    ensures ChosenBits(false, v) == Nil() && ChosenBits(true, v) == v
  {
  }

  lemma AddNil(x: Bits)
    ensures Add(x, Nil()) == x && Add(Nil(), x) == x
  {
  }

  lemma AddAssociates(x: Bits, y: Bits, z: Bits)
    ensures Add(Add(x, y), z) == Add(x, Add(y, z))
  {
  }

  lemma AddInterchange(p: Bits, q: Bits, r: Bits, s: Bits)
    ensures Add(Add(p, q), Add(r, s)) == Add(Add(p, r), Add(q, s))
  {
  }

  lemma NextAdds(x: Bits, y: Bits)
    ensures Next(Add(x, y)) == Add(Next(x), Next(y))
  {
  }

  lemma ChosenAdds(bit: bool, x: Bits, y: Bits)
    ensures ChosenBits(bit, Add(x, y)) == Add(ChosenBits(bit, x), ChosenBits(bit, y))
  {
    AddNil(Nil());
  }

  lemma {:induction false} ProductAddsRight(x: Bits, v: Bits, w: Bits, k: nat)
    requires k <= 128
    ensures Product(x, Add(v, w), k) == Add(Product(x, v, k), Product(x, w, k))
    decreases 128 - k
  {
    hide Add, Next, ChosenBits, Nil;
    if k == 128 {
      AddNil(Nil());
    } else {
      ChosenAdds(x[k], v, w);
      NextAdds(v, w);
      ProductAddsRight(x, Next(v), Next(w), k + 1);
      AddInterchange(ChosenBits(x[k], v), ChosenBits(x[k], w), Product(x, Next(v), k + 1), Product(x, Next(w), k + 1));
    }
  }

  lemma ChosenByAdds(x: Bits, y: Bits, v: Bits, k: nat)
    requires k < 128
    ensures ChosenBits(Add(x, y)[k], v) == Add(ChosenBits(x[k], v), ChosenBits(y[k], v))
  {
    AddNil(v);
    AddNil(Nil());
  }

  lemma {:induction false} ProductAddsLeft(x: Bits, y: Bits, v: Bits, k: nat)
    requires k <= 128
    ensures Product(Add(x, y), v, k) == Add(Product(x, v, k), Product(y, v, k))
    decreases 128 - k
  {
    hide Add, Next, ChosenBits, Nil;
    if k == 128 {
      AddNil(Nil());
    } else {
      ChosenByAdds(x, y, v, k);
      ProductAddsLeft(x, y, Next(v), k + 1);
      AddInterchange(ChosenBits(x[k], v), ChosenBits(y[k], v), Product(x, Next(v), k + 1), Product(y, Next(v), k + 1));
    }
  }

  /** Multiplication distributes over addition on both sides. */
  lemma MultiplyDistributes(x: Bits, y: Bits, z: Bits)
    ensures Multiply(Add(x, y), z) == Add(Multiply(x, z), Multiply(y, z))
    ensures Multiply(z, Add(x, y)) == Add(Multiply(z, x), Multiply(z, y))
  {
    ProductAddsLeft(x, y, z, 0);
    ProductAddsRight(z, x, y, 0);
  }

  // ----- the product is that of a commutative ring

  /** `v` after `n` steps: multiplied by the `n`-th power of the second element of the basis. */
  function Power(v: Bits, n: nat): Bits {
    if n == 0 then v else Next(Power(v, n - 1))
  }

  /** The basis: one bit each. */
  function Unit(k: nat): Bits {
    seq(128, i => i == k)
  }

  lemma {:induction false} PowerOfNext(v: Bits, n: nat)
    ensures Power(Next(v), n) == Next(Power(v, n))
    decreases n
  {
    hide Next;
    if n > 0 { PowerOfNext(v, n - 1); }
  }

  lemma {:induction false} PowerSum(v: Bits, m: nat, n: nat)
    ensures Power(Power(v, m), n) == Power(v, m + n)
    decreases n
  {
    hide Next;
    if n > 0 { PowerSum(v, m, n - 1); }
  }

  lemma NextUnit(k: nat)
    requires k < 127
    ensures Next(Unit(k)) == Unit(k + 1)
  {
  }

  lemma {:induction false} UnitIsPower(k: nat)
    requires k < 128
    ensures Unit(k) == Power(Unit(0), k)
    decreases k
  {
    hide Next, Unit;
    if k > 0 {
      UnitIsPower(k - 1);
      NextUnit(k - 1);
    }
  }

  /** Multiplying by an element of the basis takes as many steps as its place. */
  lemma {:induction false} UnitProduct(m: nat, v: Bits, k: nat)
    requires m < 128 && k <= 128
    ensures Product(Unit(m), v, k) == if k <= m then Power(v, m - k) else Nil()
    decreases 128 - k
  {
    hide Next, Add, Nil;
    if k < 128 {
      UnitProduct(m, Next(v), k + 1);
      AddNil(v);
      AddNil(Nil());
      if k < m {
        PowerOfNext(v, m - k - 1);
        AddNil(Power(v, m - k));
      }
    }
  }

  /**
   The field is that of the polynomial x^128 + x^7 + x^2 + x + 1: the second element of the basis, x, takes
   each element to the next, and the last to bits 0, 1, 2 and 7.
   */
  lemma TimesX(k: nat)
    requires k < 128
    ensures Multiply(Unit(k), Unit(1)) == Multiply(Unit(1), Unit(k))
         == if k < 127 then Unit(k + 1) else seq(128, i => i == 0 || i == 1 || i == 2 || i == 7)
  {
    if k < 127 { NextUnit(k); } else { LastUnit(); }
    hide Unit, Next, Multiply;
    ByX(Unit(k));
  }

  lemma ByX(v: Bits)
    ensures Multiply(v, Unit(1)) == Multiply(Unit(1), v) == Next(v)
  {
    hide Next, Unit;
    MultiplyCommutes(v, Unit(1));
    UnitProduct(1, v, 0);
    FirstPower(v);
  }

  lemma FirstPower(v: Bits)
    ensures Power(v, 1) == Next(v)
  {
    hide Next;
    assert Power(v, 1) == Next(Power(v, 0));
  }

  lemma LastUnit()
    ensures Next(Unit(127)) == seq(128, i => i == 0 || i == 1 || i == 2 || i == 7)
  {
  }

  /** The first `n` bits. */
  function Front(x: Bits, n: nat): Bits {
    seq(128, i requires 0 <= i < 128 => i < n && x[i])
  }

  lemma FrontSteps(x: Bits, n: nat)
    requires n < 128
    ensures Front(x, n + 1) == Add(Front(x, n), ChosenBits(x[n], Unit(n)))
  {
  }

  lemma FrontEnds(x: Bits)
    ensures Front(x, 0) == Nil() && Front(x, 128) == x
  {
  }

  lemma {:induction false} NilProduct(v: Bits, k: nat)
    requires k <= 128
    ensures Product(Nil(), v, k) == Nil()
    decreases 128 - k
  {
    if k < 128 {
      NilProduct(Next(v), k + 1);
      AddNil(Nil());
    }
  }

  lemma {:induction false} ProductNil(x: Bits, k: nat)
    requires k <= 128
    ensures Product(x, Nil(), k) == Nil()
    decreases 128 - k
  {
    if k < 128 {
      assert Next(Nil()) == Nil();
      ProductNil(x, k + 1);
      AddNil(Nil());
    }
  }

  lemma NilMultiply(x: Bits)
    ensures Multiply(Nil(), x) == Nil() && Multiply(x, Nil()) == Nil()
  {
    NilProduct(x, 0);
    ProductNil(x, 0);
  }

  lemma UnitMultiply(m: nat, v: Bits)
    requires m < 128
    ensures Multiply(Unit(m), v) == Power(v, m)
  {
    UnitProduct(m, v, 0);
  }

  lemma UnitsCommute(m: nat, n: nat)
    requires m < 128 && n < 128
    ensures Multiply(Unit(m), Unit(n)) == Multiply(Unit(n), Unit(m))
  {
    hide Unit, Multiply, Power;
    UnitMultiply(m, Unit(n));
    UnitMultiply(n, Unit(m));
    UnitIsPower(m);
    UnitIsPower(n);
    PowerSum(Unit(0), n, m);
    PowerSum(Unit(0), m, n);
  }

  /** A fact that adds up from the basis holds of everything. */
  lemma {:induction false} UnitCommutes(m: nat, x: Bits, n: nat)
    requires m < 128 && n <= 128
    ensures Multiply(Unit(m), Front(x, n)) == Multiply(Front(x, n), Unit(m))
    decreases n
  {
    hide Unit, Multiply, Add, Front, Nil;
    if n == 0 {
      FrontEnds(x);
      NilMultiply(Unit(m));
    } else {
      UnitCommutes(m, x, n - 1);
      FrontSteps(x, n - 1);
      MultiplyDistributes(Front(x, n - 1), ChosenBits(x[n - 1], Unit(n - 1)), Unit(m));
      UnitsCommute(m, n - 1);
      NilMultiply(Unit(m));
    }
  }

  lemma {:induction false} FrontCommutes(x: Bits, y: Bits, n: nat)
    requires n <= 128
    ensures Multiply(Front(x, n), y) == Multiply(y, Front(x, n))
    decreases n
  {
    hide Unit, Multiply, Add, Front, Nil;
    if n == 0 {
      FrontEnds(x);
      NilMultiply(y);
    } else {
      FrontCommutes(x, y, n - 1);
      FrontSteps(x, n - 1);
      MultiplyDistributes(Front(x, n - 1), ChosenBits(x[n - 1], Unit(n - 1)), y);
      UnitCommutes(n - 1, y, 128);
      FrontEnds(y);
      NilMultiply(y);
    }
  }

  lemma MultiplyCommutes(x: Bits, y: Bits)
    ensures Multiply(x, y) == Multiply(y, x)
  {
    FrontCommutes(x, y, 128);
    FrontEnds(x);
  }

  /** A step of one factor is a step of the product. */
  lemma {:induction false} ProductNext(x: Bits, v: Bits, k: nat)
    requires k <= 128
    ensures Product(x, Next(v), k) == Next(Product(x, v, k))
    decreases 128 - k
  {
    hide Add, Next, Nil;
    if k == 128 {
      NextNil();
    } else {
      ProductNext(x, Next(v), k + 1);
      NextAdds(ChosenBits(x[k], v), Product(x, Next(v), k + 1));
      NextNil();
    }
  }

  lemma NextNil()
    ensures Next(Nil()) == Nil()
  {
    assert Next(Nil()) == Nil();
  }

  lemma {:induction false} MultiplyPower(v: Bits, z: Bits, m: nat)
    ensures Multiply(Power(v, m), z) == Power(Multiply(v, z), m)
    decreases m
  {
    hide Next, Product;
    if m > 0 {
      MultiplyPower(v, z, m - 1);
      var w := Power(v, m - 1);
      MultiplyCommutes(Next(w), z);
      ProductNext(z, w, 0);
      MultiplyCommutes(z, w);
    }
  }

  lemma {:induction false} FrontAssociates(x: Bits, y: Bits, z: Bits, n: nat)
    requires n <= 128
    ensures Multiply(Front(x, n), Multiply(y, z)) == Multiply(Multiply(Front(x, n), y), z)
    decreases n
  {
    hide Unit, Multiply, Add, Front, Nil, Power;
    if n == 0 {
      FrontEnds(x);
      NilMultiply(y);
      NilMultiply(z);
      NilMultiply(Multiply(y, z));
    } else {
      var front, one := Front(x, n - 1), ChosenBits(x[n - 1], Unit(n - 1));
      FrontAssociates(x, y, z, n - 1);
      FrontSteps(x, n - 1);
      MultiplyDistributes(front, one, Multiply(y, z));
      MultiplyDistributes(front, one, y);
      MultiplyDistributes(Multiply(front, y), Multiply(one, y), z);
      UnitMultiply(n - 1, Multiply(y, z));
      UnitMultiply(n - 1, y);
      MultiplyPower(y, z, n - 1);
      NilMultiply(y);
      NilMultiply(z);
      NilMultiply(Multiply(y, z));
    }
  }

  lemma MultiplyAssociates(x: Bits, y: Bits, z: Bits)
    ensures Multiply(x, Multiply(y, z)) == Multiply(Multiply(x, y), z)
  {
    FrontAssociates(x, y, z, 128);
    FrontEnds(x);
  }

  /** The first element of the basis is the one of the ring. */
  lemma MultiplyOne(x: Bits)
    ensures Multiply(Unit(0), x) == x && Multiply(x, Unit(0)) == x
  {
    hide Unit, Multiply;
    UnitMultiply(0, x);
    MultiplyCommutes(x, Unit(0));
  }
}
