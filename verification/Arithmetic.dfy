/** Division facts the solver does not find alone. */
module Arithmetic {
  /** The only multiple of `size` smaller than `size` is zero. */
  lemma SmallMultiple(size: int, factor: int)
    requires size > 0
    ensures factor != 0 ==> size * factor >= size || size * factor <= -size
  {
    if factor > 0 {
      var less := factor - 1;
      assert size * less >= 0;
      assert size * (less + 1) == size * less + size;
    } else if factor < 0 {
      var less := -factor - 1;
      assert size * less >= 0;
      assert size * (less + 1) == size * less + size;
      assert size * factor == -(size * (less + 1));
    }
  }

  lemma RemainderUnique(value: nat, size: nat, quotient: int, rest: nat)
    requires rest < size && value == size * quotient + rest
    ensures value % size == rest
  {
    var gap := value / size - quotient;
    assert size * gap == rest - value % size by {
      assert value == size * (value / size) + value % size;
      assert size * gap == size * (value / size) - size * quotient;
    }
    SmallMultiple(size, gap);
  }

  lemma QuotientUnique(value: nat, size: nat, quotient: int, rest: nat)
    requires rest < size && value == size * quotient + rest
    ensures value / size == quotient
  {
    var gap := value / size - quotient;
    assert size * gap == rest - value % size by {
      assert value == size * (value / size) + value % size;
      assert size * gap == size * (value / size) - size * quotient;
    }
    SmallMultiple(size, gap);
  }

  lemma WholeTurns(turns: nat, size: nat, rest: nat)
    requires size > 0
    ensures (size * turns + rest) % size == rest % size
  {
    var value := size * turns + rest;
    var quotient := turns + rest / size;
    assert value == size * quotient + rest % size by {
      assert rest == size * (rest / size) + rest % size;
      assert size * (turns + rest / size) == size * turns + size * (rest / size);
    }
    RemainderUnique(value, size, quotient, rest % size);
  }

  lemma DividesTwice(value: nat, a: nat, b: nat)
    requires a > 0 && b > 0
    ensures a * b > 0 && value / a / b == value / (a * b)
  {
    TwoQuotients(value, a, b);
  }

  /** The remainder by a product, taken apart. */
  lemma RemainderTwice(value: nat, a: nat, b: nat)
    requires a > 0 && b > 0
    ensures a * b > 0
    ensures value % (a * b) % a == value % a && value % (a * b) / a == value / a % b
  {
    TwoQuotients(value, a, b);
    var low := a * (value / a % b) + value % a;
    RemainderUnique(low, a, value / a % b, value % a);
    QuotientUnique(low, a, value / a % b, value % a);
  }

  lemma TwoQuotients(value: nat, a: nat, b: nat)
    requires a > 0 && b > 0
    ensures a * b > 0 && value / (a * b) == value / a / b && value % (a * b) == a * (value / a % b) + value % a
  {
    var half := value / a;
    var q, r := half / b, half % b;
    Regroup(value, a, b, half, q, r, value % a);
    var rest := a * r + value % a;
    QuotientUnique(value, a * b, q, rest);
    RemainderUnique(value, a * b, q, rest);
  }

  lemma Regroup(value: nat, a: nat, b: nat, half: nat, q: nat, r: nat, low: nat)
    requires value == a * half + low && low < a && half == b * q + r && r < b
    ensures a * b > 0 && value == a * b * q + (a * r + low) && 0 <= a * r + low < a * b
  {
    assert a * half == a * (b * q) + a * r;
    assert a * (b * q) == a * b * q;
    var top := b - 1 - r;
    assert a * b == a * r + a + a * top by {
      assert b == r + 1 + top;
    }
    assert a * top >= 0 && a * r >= 0;
  }
}
