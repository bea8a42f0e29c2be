// Vocabulary shared by every component of the model.

module Basics {

  // Failure-compatible: `:-` passes None on.
  datatype Option<+T> = None | Some(value: T) {
    predicate IsFailure() {
      None?
    }

    function PropagateFailure<U>(): Option<U>
      requires None?
    {
      None
    }

    function Extract(): T
      requires Some?
    {
      value
    }
  }

  // `:- Need(condition);` gives up unless the condition holds.
  datatype Guard = Met | Unmet {
    predicate IsFailure() {
      Unmet?
    }

    function PropagateFailure<U>(): Option<U>
      requires Unmet?
    {
      None
    }
  }

  function Need(condition: bool): Guard {
    if condition then Met else Unmet
  }

  const UINT64_LIMIT: int := 0x1_0000_0000_0000_0000

  // The C++ `unsigned char`, `int`, `quint32` and `quint64` the source stores. Arithmetic that could leave
  // the range does not verify, so an expression of these types cannot overflow.
  newtype byte = x: int | 0 <= x < 256
  newtype int32 = x: int | -0x8000_0000 <= x <= 0x7FFF_FFFF
  newtype uint32 = x: int | 0 <= x <= 0xFFFF_FFFF
  newtype uint64 = x: int | 0 <= x < 0x1_0000_0000_0000_0000

  // Exchanging one part of a set for another.
  lemma Exchange<T>(whole: set<T>, part: set<T>, lost: set<T>, gained: set<T>)
    requires part <= whole && lost <= part && gained !! whole
    ensures whole - part + (part - lost + gained) == whole - lost + gained
  {
  }

  function Min(a: int, b: int): int {
    if a <= b then a else b
  }

  function Max(a: int, b: int): int {
    if a <= b then b else a
  }

  lemma ModuloSuccessor(n: nat, m: int)
    requires m > 1
    ensures (n + 1) % m == (n % m + 1) % m
  {
    var q, r := n / m, n % m;
    assert n == q * m + r;
    if r + 1 < m {
      DivisionUnique(n + 1, m, q, r + 1);
    } else {
      assert n + 1 == (q + 1) * m;
      DivisionUnique(n + 1, m, q + 1, 0);
    }
  }

  lemma DivisionUnique(n: nat, m: int, q: int, r: int)
    requires m > 0 && n == q * m + r && 0 <= r < m
    ensures n % m == r
  {
    var d := n / m - q;
    assert n == (n / m) * m + n % m;
    assert d * m == r - n % m;
    MultipleSide(d, m);
  }

  lemma MultipleSide(d: int, m: int)
    requires m > 0
    ensures (d >= 1 ==> d * m >= m) && (d <= -1 ==> d * m <= -m)
  {
    assert d * m == (d - 1) * m + m == (d + 1) * m - m;
  }
}
