/** The register fed one bit at a time, and the most a checksum of this kind promises about damage: a difference
    confined to as many consecutive bits as the register has, wherever they lie, is never lost. */
module BitBurst {
  import opened Words
  import opened ShiftRegister

  type BitString = seq<bool>

  /** A register with the word that has only its k-th bit set, counted in the order bits fall out, its width, and
      the bits of a byte in that order. */
  datatype Serial<!R> = Serial(m: Register<R>, place: nat -> R, width: nat, bits: Byte -> BitString) {
    function Unit(bit: bool, k: nat): R { if bit then place(k) else m.zero }

    /** The word whose bits from the k-th are these. */
    function Word(bits: BitString, k: nat): R {
      if |bits| == 0 then m.zero else m.xor(Unit(bits[0], k), Word(bits[1..], k + 1))
    }

    function Feed(c: R, bits: BitString): R {
      if |bits| == 0 then c else Feed(m.Step(m.xor(c, Unit(bits[0], 0))), bits[1..])
    }

    function AllBits(data: Bytes): BitString {
      if |data| == 0 then [] else AllBits(data[..|data| - 1]) + bits(data[|data| - 1])
    }
  }

  /** What is needed of a register here; every linear one is like this. */
  ghost predicate Lawful<R(!new)>(m: Register<R>) {
    && Additive(m) && m.Step(m.zero) == m.zero && !m.carry(m.zero)
    && (forall a, b, c {:trigger m.xor(a, m.xor(b, c))} :: m.xor(a, m.xor(b, c)) == m.xor(m.xor(a, b), c))
    && (forall c :: m.xor(c, m.zero) == c)
    && (forall a, b :: m.carry(m.xor(a, b)) == (m.carry(a) != m.carry(b)))
    && (forall a, b, c :: m.xor(a, b) == m.xor(a, c) ==> b == c)
    && (forall a, b, c :: m.xor(b, a) == m.xor(c, a) ==> b == c)
    && (forall a, b :: m.Step(a) == m.Step(b) ==> a == b)
  }

  lemma LinearIsLawful<R(!new)>(m: Register<R>)
    requires Group(m) && Linear(m)
    ensures Lawful(m)
  {
    forall a, b ensures m.Step(m.xor(a, b)) == m.xor(m.Step(a), m.Step(b)) {
      StepLinear(m, a, b);
    }
    ZeroStays(m);
    forall a, b, c | m.xor(a, b) == m.xor(a, c) ensures b == c {
      Cancel(m, a, b, c);
    }
    forall a, b, c | m.xor(b, a) == m.xor(c, a) ensures b == c {
      assert m.xor(a, b) == m.xor(b, a) && m.xor(a, c) == m.xor(c, a);
      Cancel(m, a, b, c);
    }
    forall a, b | m.Step(a) == m.Step(b) ensures a == b {
      StepInjective(m, a, b);
    }
  }

  lemma ZeroStays<R(!new)>(m: Register<R>)
    requires Group(m) && Linear(m)
    ensures !m.carry(m.zero) && m.Step(m.zero) == m.zero
  {
    var z := m.zero;
    assert m.xor(z, z) == z;
    StepLinear(m, z, z);
    assert m.xor(m.Step(z), m.Step(z)) == z;
  }

  lemma Cancel<R(!new)>(m: Register<R>, a: R, b: R, c: R)
    requires Group(m) && m.xor(a, b) == m.xor(a, c)
    ensures b == c
  {
    assert m.xor(a, m.xor(a, b)) == m.xor(m.xor(a, a), b);
    assert m.xor(a, m.xor(a, c)) == m.xor(m.xor(a, a), c);
    assert m.xor(a, a) == m.zero;
    FirstDelta(m, b);
    FirstDelta(m, c);
  }

  lemma StepInjective<R(!new)>(m: Register<R>, a: R, b: R)
    requires Group(m) && Linear(m) && m.Step(a) == m.Step(b)
    ensures a == b
  {
    assert m.Steps(a, 1) == m.Step(m.Steps(a, 0)) && m.Steps(b, 1) == m.Step(m.Steps(b, 0));
    StepsInjective(m, a, b, 1);
  }

  lemma {:induction false} StepsTell<R(!new)>(m: Register<R>, a: R, b: R, n: nat)
    requires Lawful(m) && m.Steps(a, n) == m.Steps(b, n)
    ensures a == b
  {
    if n > 0 {
      StepsTell(m, a, b, n - 1);
    }
  }

  ghost predicate Ordered<R(!new)>(s: Serial<R>) {
    && Lawful(s.m) && 8 <= s.width
    && s.m.carry(s.place(0))
    && (forall k: nat :: 0 < k < s.width ==> !s.m.carry(s.place(k)) && s.m.shift(s.place(k)) == s.place(k - 1))
  }

  /** Bytes are injected as their bits, first bit where the next one falls out. */
  ghost predicate Injects<R(!new)>(s: Serial<R>) {
    && (forall b: Byte :: |s.bits(b)| == 8 && s.m.inject(b) == s.Word(s.bits(b), 0))
    && (forall a: Byte, b: Byte :: s.bits(a) == s.bits(b) ==> a == b)
  }

  // ----- words of bits -----

  /** Away from the end that falls out, a step just moves the bits along. */
  lemma UnitMoves<R(!new)>(s: Serial<R>, bit: bool, k: nat)
    requires Ordered(s) && 0 < k < s.width
    ensures !s.m.carry(s.Unit(bit, k)) && s.m.Step(s.Unit(bit, k)) == s.Unit(bit, k - 1)
  {
  }

  lemma {:induction false} WordMoves<R(!new)>(s: Serial<R>, bits: BitString, k: nat)
    requires Ordered(s) && 0 < k && k + |bits| <= s.width
    ensures !s.m.carry(s.Word(bits, k)) && s.m.Step(s.Word(bits, k)) == s.Word(bits, k - 1)
    decreases |bits|
  {
    if |bits| > 0 {
      UnitMoves(s, bits[0], k);
      WordMoves(s, bits[1..], k + 1);
    }
  }

  lemma FirstBitFed<R(!new)>(s: Serial<R>, c: R, bits: BitString)
    requires Ordered(s) && 0 < |bits| <= s.width
    ensures s.m.Step(s.m.xor(c, s.Word(bits, 0))) ==
      s.m.xor(s.m.Step(s.m.xor(c, s.Unit(bits[0], 0))), s.Word(bits[1..], 0))
  {
    WordMoves(s, bits[1..], 1);
    assert s.m.xor(c, s.Word(bits, 0)) == s.m.xor(s.m.xor(c, s.Unit(bits[0], 0)), s.Word(bits[1..], 1));
  }

  /** Feeding bits one at a time is the same as placing them all at once and stepping. */
  lemma {:induction false} FeedIsSteps<R(!new)>(s: Serial<R>, c: R, bits: BitString)
    requires Ordered(s) && |bits| <= s.width
    ensures s.Feed(c, bits) == s.m.Steps(s.m.xor(c, s.Word(bits, 0)), |bits|)
    decreases |bits|
  {
    if |bits| > 0 {
      FirstBitFed(s, c, bits);
      StepFirst(s.m, s.m.xor(c, s.Word(bits, 0)), |bits| - 1);
      FeedIsSteps(s, s.m.Step(s.m.xor(c, s.Unit(bits[0], 0))), bits[1..]);
    }
  }

  lemma FirstBit<R(!new)>(s: Serial<R>, bits: BitString)
    requires Ordered(s) && 0 < |bits| <= s.width
    ensures s.m.carry(s.Word(bits, 0)) == bits[0]
  {
    WordMoves(s, bits[1..], 1);
  }

  lemma SameTail<R(!new)>(s: Serial<R>, x: BitString, y: BitString)
    requires Ordered(s) && 0 < |x| == |y| <= s.width && s.Word(x, 0) == s.Word(y, 0)
    ensures x[0] == y[0] && s.Word(x[1..], 0) == s.Word(y[1..], 0)
  {
    FirstBit(s, x);
    FirstBit(s, y);
    assert s.Word(x[1..], 1) == s.Word(y[1..], 1);
    WordMoves(s, x[1..], 1);
    WordMoves(s, y[1..], 1);
  }

  /** Different bits make different words. */
  lemma {:induction false} WordInjective<R(!new)>(s: Serial<R>, x: BitString, y: BitString)
    requires Ordered(s) && |x| == |y| <= s.width && s.Word(x, 0) == s.Word(y, 0)
    ensures x == y
    decreases |x|
  {
    if |x| > 0 {
      SameTail(s, x, y);
      WordInjective(s, x[1..], y[1..]);
      assert x == [x[0]] + x[1..] && y == [y[0]] + y[1..];
    }
  }

  // ----- runs of bits -----

  lemma {:induction false} FeedConcat<R>(s: Serial<R>, c: R, x: BitString, y: BitString)
    ensures s.Feed(c, x + y) == s.Feed(s.Feed(c, x), y)
    decreases |x|
  {
    if |x| == 0 {
      assert x + y == y;
    } else {
      assert (x + y)[1..] == x[1..] + y;
      FeedConcat(s, s.m.Step(s.m.xor(c, s.Unit(x[0], 0))), x[1..], y);
    }
  }

  lemma {:induction false} FeedInjective<R(!new)>(s: Serial<R>, c: R, d: R, bits: BitString)
    requires Ordered(s) && s.Feed(c, bits) == s.Feed(d, bits)
    ensures c == d
    decreases |bits|
  {
    if |bits| > 0 {
      var unit := s.Unit(bits[0], 0);
      var x, y := s.m.xor(c, unit), s.m.xor(d, unit);
      FeedInjective(s, s.m.Step(x), s.m.Step(y), bits[1..]);
      assert x == y;
    }
  }

  /** Through a window no wider than the register, different bits lead from one state to different states. */
  lemma WindowTells<R(!new)>(s: Serial<R>, c: R, x: BitString, y: BitString)
    requires Ordered(s) && |x| == |y| <= s.width && s.Feed(c, x) == s.Feed(c, y)
    ensures x == y
  {
    FeedIsSteps(s, c, x);
    FeedIsSteps(s, c, y);
    StepsTell(s.m, s.m.xor(c, s.Word(x, 0)), s.m.xor(c, s.Word(y, 0)), |x|);
    WordInjective(s, x, y);
  }

  lemma BurstTells<R(!new)>(s: Serial<R>, c: R, x: BitString, y: BitString, at: nat)
    requires Ordered(s) && AgreeOutside(x, y, at, s.width) && s.Feed(c, x) == s.Feed(c, y)
    ensures x == y
  {
    var from := if at <= |x| then at else |x|;
    var until := if at + s.width <= |x| then at + s.width else |x|;
    var head, tail := x[..from], x[until..];
    assert y[..from] == head && y[until..] == tail;
    assert x == head + x[from..until] + tail && y == head + y[from..until] + tail;
    FeedThree(s, c, head, x[from..until], tail);
    FeedThree(s, c, head, y[from..until], tail);
    var e := s.Feed(c, head);
    FeedInjective(s, s.Feed(e, x[from..until]), s.Feed(e, y[from..until]), tail);
    WindowTells(s, e, x[from..until], y[from..until]);
  }

  lemma FeedThree<R>(s: Serial<R>, c: R, x: BitString, y: BitString, z: BitString)
    ensures s.Feed(c, x + y + z) == s.Feed(s.Feed(s.Feed(c, x), y), z)
  {
    FeedConcat(s, c, x + y, z);
    FeedConcat(s, c, x, y);
  }

  // ----- bytes -----

  /** Absorbing bytes is feeding their bits. */
  lemma {:induction false} FromIsFeed<R(!new)>(s: Serial<R>, c: R, data: Bytes)
    requires Ordered(s) && Injects(s)
    ensures s.m.From(c, data) == s.Feed(c, s.AllBits(data))
  {
    if |data| > 0 {
      var front, last := data[..|data| - 1], data[|data| - 1];
      FromIsFeed(s, c, front);
      FeedConcat(s, c, s.AllBits(front), s.bits(last));
      FeedIsSteps(s, s.m.From(c, front), s.bits(last));
    }
  }

  lemma {:induction false} BitOfByte<R(!new)>(s: Serial<R>, data: Bytes, i: nat, j: nat)
    requires Injects(s) && i < |data| && j < 8
    ensures |s.AllBits(data)| == 8 * |data| && s.AllBits(data)[8 * i + j] == s.bits(data[i])[j]
    decreases |data|
  {
    var n := |data| - 1;
    if n > 0 {
      BitOfByte(s, data[..n], if i < n then i else 0, j);
    }
  }

  lemma LengthInBits<R(!new)>(s: Serial<R>, data: Bytes)
    requires Injects(s)
    ensures |s.AllBits(data)| == 8 * |data|
  {
    if |data| > 0 {
      BitOfByte(s, data, 0, 0);
    }
  }

  lemma BitsTellBytes<R(!new)>(s: Serial<R>, a: Bytes, b: Bytes)
    requires Injects(s) && |a| == |b| && s.AllBits(a) == s.AllBits(b)
    ensures a == b
  {
    forall i | 0 <= i < |a| ensures a[i] == b[i] {
      forall j | 0 <= j < 8 ensures s.bits(a[i])[j] == s.bits(b[i])[j] {
        BitOfByte(s, a, i, j);
        BitOfByte(s, b, i, j);
      }
      assert s.bits(a[i]) == s.bits(b[i]);
    }
  }

  /** Strings that differ, but only within as many consecutive bits as the register has, leave it in different
      states: at any bit offset, whatever their length and whatever state it starts from. */
  lemma BurstChanges<R(!new)>(s: Serial<R>, c: R, a: Bytes, b: Bytes, at: nat)
    requires Ordered(s) && Injects(s) && |a| == |b| && a != b
    requires AgreeOutside(s.AllBits(a), s.AllBits(b), at, s.width)
    ensures s.m.From(c, a) != s.m.From(c, b)
  {
    FromIsFeed(s, c, a);
    FromIsFeed(s, c, b);
    if s.m.From(c, a) == s.m.From(c, b) {
      BurstTells(s, c, s.AllBits(a), s.AllBits(b), at);
      BitsTellBytes(s, a, b);
    }
  }

  /** Whole bytes are such a window. */
  lemma BytesAreBits<R(!new)>(s: Serial<R>, a: Bytes, b: Bytes, at: nat, width: nat)
    requires Injects(s) && AgreeOutside(a, b, at, width)
    ensures AgreeOutside(s.AllBits(a), s.AllBits(b), 8 * at, 8 * width)
  {
    LengthInBits(s, a);
    LengthInBits(s, b);
    forall k | 0 <= k < 8 * |a| && !(8 * at <= k < 8 * at + 8 * width) ensures s.AllBits(a)[k] == s.AllBits(b)[k] {
      BitOfByte(s, a, k / 8, k % 8);
      BitOfByte(s, b, k / 8, k % 8);
    }
  }

  /** Bytes whose bits are outside the window are the same. */
  lemma SameByte<R(!new)>(s: Serial<R>, a: Bytes, b: Bytes, at: nat, width: nat, i: nat)
    requires Injects(s) && |a| == |b| && AgreeOutside(s.AllBits(a), s.AllBits(b), at, width)
    requires i < |a| && (8 * i + 8 <= at || at + width <= 8 * i)
    ensures a[i] == b[i]
  {
    forall j | 0 <= j < 8 ensures s.bits(a[i])[j] == s.bits(b[i])[j] {
      BitOfByte(s, a, i, j);
      BitOfByte(s, b, i, j);
      assert s.AllBits(a)[8 * i + j] == s.AllBits(b)[8 * i + j];
    }
    assert s.bits(a[i]) == s.bits(b[i]);
  }

  lemma BitInFront<R(!new)>(s: Serial<R>, a: Bytes, n: nat, k: nat)
    requires Injects(s) && n <= |a| && k < 8 * n
    ensures |s.AllBits(a)| == 8 * |a| && |s.AllBits(a[..n])| == 8 * n && s.AllBits(a[..n])[k] == s.AllBits(a)[k]
  {
    BitOfByte(s, a, k / 8, k % 8);
    BitOfByte(s, a[..n], k / 8, k % 8);
  }

  /** A window inside the first n bytes, seen in them alone. */
  lemma WindowInFront<R(!new)>(s: Serial<R>, a: Bytes, b: Bytes, at: nat, width: nat, n: nat)
    requires Injects(s) && |a| == |b| && n <= |a| && AgreeOutside(s.AllBits(a), s.AllBits(b), at, width)
    requires at + width <= 8 * n
    ensures AgreeOutside(s.AllBits(a[..n]), s.AllBits(b[..n]), at, width) && a[n..] == b[n..]
  {
    LengthInBits(s, a[..n]);
    LengthInBits(s, b[..n]);
    forall i | n <= i < |a| ensures a[i] == b[i] {
      SameByte(s, a, b, at, width, i);
    }
    forall k | 0 <= k < 8 * n && !(at <= k < at + width) ensures s.AllBits(a[..n])[k] == s.AllBits(b[..n])[k] {
      BitInFront(s, a, n, k);
      BitInFront(s, b, n, k);
    }
  }
}
