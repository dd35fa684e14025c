/** Cyclic redundancy checks seen as a linear feedback shift register over any word type: one step
    shifts the word by a bit and, when a one falls out, adds the polynomial. Everything a checksum
    promises about damage follows from the register being linear and one to one. */
module ShiftRegister {
  import opened Words

  type Bytes = seq<Byte>

  /** The word operations a checksum is built from; inject places a byte where it is absorbed. */
  datatype Register<!R> = Register(
    zero: R,
    poly: R,
    xor: (R, R) -> R,
    shift: R -> R,
    carry: R -> bool,
    inject: Byte -> R)
  {
    function Step(c: R): R {
      if carry(c) then xor(shift(c), poly) else shift(c)
    }

    function Steps(c: R, n: nat): R {
      if n == 0 then c else Step(Steps(c, n - 1))
    }

    function Absorb(c: R, b: Byte): R { Steps(xor(c, inject(b)), 8) }

    function From(c: R, data: Bytes): R {
      if |data| == 0 then c else Absorb(From(c, data[..|data| - 1]), data[|data| - 1])
    }
  }

  ghost predicate Group<R(!new)>(m: Register<R>) {
    && (forall a, b :: m.xor(a, b) == m.xor(b, a))
    && (forall a, b, c :: m.xor(m.xor(a, b), c) == m.xor(a, m.xor(b, c)))
    && (forall a :: m.xor(a, m.zero) == a)
    && (forall a, b :: m.xor(a, b) == m.zero <==> a == b)
  }

  ghost predicate Linear<R(!new)>(m: Register<R>) {
    && (forall a, b :: m.shift(m.xor(a, b)) == m.xor(m.shift(a), m.shift(b)))
    && (forall a, b :: m.carry(m.xor(a, b)) == (m.carry(a) != m.carry(b)))
    && (forall c :: m.shift(c) != m.poly)
    && (forall c :: m.shift(c) == m.zero && !m.carry(c) ==> c == m.zero)
  }

  lemma Regroup<R(!new)>(m: Register<R>, a: R, b: R, c: R, d: R)
    requires Group(m)
    ensures m.xor(m.xor(a, b), m.xor(c, d)) == m.xor(m.xor(a, c), m.xor(b, d))
  {
    calc {
      m.xor(m.xor(a, b), m.xor(c, d));
      m.xor(a, m.xor(b, m.xor(c, d)));
      m.xor(a, m.xor(m.xor(b, c), d));
      m.xor(a, m.xor(m.xor(c, b), d));
      m.xor(a, m.xor(c, m.xor(b, d)));
      m.xor(m.xor(a, c), m.xor(b, d));
    }
  }

  lemma StepLinear<R(!new)>(m: Register<R>, a: R, b: R)
    requires Group(m) && Linear(m)
    ensures m.Step(m.xor(a, b)) == m.xor(m.Step(a), m.Step(b))
  {
    var x, y, k := m.shift(a), m.shift(b), m.poly;
    assert m.xor(m.xor(x, y), k) == m.xor(x, m.xor(y, k));
    assert m.xor(m.xor(x, y), k) == m.xor(m.xor(y, x), k) == m.xor(y, m.xor(x, k)) == m.xor(m.xor(x, k), y);
    Regroup(m, x, k, y, k);
    assert m.xor(k, k) == m.zero;
  }

  ghost predicate Additive<R(!new)>(m: Register<R>) {
    forall a, b :: m.Step(m.xor(a, b)) == m.xor(m.Step(a), m.Step(b))
  }

  lemma {:induction false} StepsAdditive<R(!new)>(m: Register<R>, a: R, b: R, n: nat)
    requires Additive(m)
    ensures m.Steps(m.xor(a, b), n) == m.xor(m.Steps(a, n), m.Steps(b, n))
  {
    if n > 0 {
      StepsAdditive(m, a, b, n - 1);
    }
  }

  lemma StepsLinear<R(!new)>(m: Register<R>, a: R, b: R, n: nat)
    requires Group(m) && Linear(m)
    ensures m.Steps(m.xor(a, b), n) == m.xor(m.Steps(a, n), m.Steps(b, n))
  {
    forall x, y ensures m.Step(m.xor(x, y)) == m.xor(m.Step(x), m.Step(y)) {
      StepLinear(m, x, y);
    }
    StepsAdditive(m, a, b, n);
  }

  lemma {:induction false} StepsKernel<R(!new)>(m: Register<R>, c: R, n: nat)
    requires Group(m) && Linear(m)
    requires m.Steps(c, n) == m.zero
    ensures c == m.zero
  {
    if n > 0 {
      var x := m.Steps(c, n - 1);
      assert m.shift(x) != m.poly;
      StepsKernel(m, c, n - 1);
    }
  }

  lemma {:induction false} StepFirst<R>(m: Register<R>, c: R, n: nat)
    ensures m.Steps(c, n + 1) == m.Steps(m.Step(c), n)
  {
    if n > 0 {
      StepFirst(m, c, n - 1);
    }
  }

  /** The register map is one to one: no later step can hide a difference already present. */
  lemma StepsInjective<R(!new)>(m: Register<R>, a: R, b: R, n: nat)
    requires Group(m) && Linear(m)
    requires m.Steps(a, n) == m.Steps(b, n)
    ensures a == b
  {
    StepsLinear(m, a, b, n);
    assert m.xor(m.Steps(a, n), m.Steps(b, n)) == m.zero;
    StepsKernel(m, m.xor(a, b), n);
  }

  lemma {:induction false} FromConcat<R(!new)>(m: Register<R>, c: R, a: Bytes, b: Bytes)
    ensures m.From(c, a + b) == m.From(m.From(c, a), b)
  {
    if |b| == 0 {
      assert a + b == a;
    } else {
      FromConcat(m, c, a, b[..|b| - 1]);
      assert (a + b)[..|a + b| - 1] == a + b[..|b| - 1];
    }
  }

  /** How a difference between two runs moves through one absorbed byte. */
  lemma Difference<R(!new)>(m: Register<R>, c: R, d: R, a: Byte, b: Byte)
    requires Group(m) && Linear(m)
    ensures m.xor(m.Absorb(c, a), m.Absorb(d, b))
         == m.Steps(m.xor(m.xor(c, d), m.xor(m.inject(a), m.inject(b))), 8)
  {
    StepsLinear(m, m.xor(c, m.inject(a)), m.xor(d, m.inject(b)), 8);
    Regroup(m, c, m.inject(a), d, m.inject(b));
  }

  lemma FirstDelta<R(!new)>(m: Register<R>, z: R)
    requires Group(m)
    ensures m.xor(m.zero, z) == z
  {
    assert m.xor(m.zero, z) == m.xor(z, m.zero);
  }

  /** a and b agree outside the positions [at, at + width). */
  ghost predicate AgreeOutside<T>(a: seq<T>, b: seq<T>, at: nat, width: nat) {
    && |a| == |b|
    && forall i :: 0 <= i < |a| && !(at <= i < at + width) ==> a[i] == b[i]
  }
}
