/** The AF_XDP ring's free-running 32-bit counters and the two helpers that compare them. */
module RingCounters {

  const MODULUS: nat := 0x1_0000_0000

  type uint32 = x: int | 0 <= x < MODULUS

  function Wrap(n: int): uint32 {
    n % MODULUS
  }

  /** Unsigned subtraction. */
  function Sub32(a: uint32, b: uint32): uint32 {
    (a - b) % MODULUS
  }

  /** `*producer - cached_prod`. */
  function RingAvailable(producer: uint32, cached: uint32): uint32 {
    Sub32(producer, cached)
  }

  /** Slots between the producer and a cached consumer, clamped to the size. */
  function RingFree(producer: uint32, size: uint32, cached: uint32): uint32 {
    var used := Sub32(producer, cached);
    var used := if used >= size then size else used;
    size - used
  }

  /** Sub32 of two wrapped counters is their true difference, as long as that is less than 2^32. */
  lemma SubOfWrapped(a: nat, b: nat)
    requires b <= a < b + MODULUS
    ensures Sub32(Wrap(a), Wrap(b)) == a - b
  {
  }

  lemma WrapDifference(a: int, b: int)
    ensures Sub32(Wrap(a), Wrap(b)) == (a - b) % MODULUS
  {
  }

  // ----- runs of a ring -----

  /** The true, unbounded counters, and the producer's cached copy of the consumer. */
  datatype Ring = Ring(size: uint32, produced: nat, consumed: nat, cached: nat)

  /** What the shared 32-bit words hold. */
  function Available(r: Ring): uint32 {
    RingAvailable(Wrap(r.produced), Wrap(r.consumed))
  }

  function Free(r: Ring): uint32 {
    RingFree(Wrap(r.produced), r.size, Wrap(r.cached))
  }

  /** `n` entries are produced or consumed at once; `Refresh` rereads the shared consumer. */
  datatype Step = Produce(n: nat) | Consume(n: nat) | Refresh

  /** A step is legal when the helper called on the 32-bit words allows it. */
  predicate Legal(r: Ring, s: Step) {
    match s
    case Produce(n) => n <= Free(r)
    case Consume(n) => n <= Available(r)
    case Refresh => true
  }

  function Apply(r: Ring, s: Step): Ring {
    match s
    case Produce(n) => r.(produced := r.produced + n)
    case Consume(n) => r.(consumed := r.consumed + n)
    case Refresh => r.(cached := r.consumed)
  }

  ghost predicate IsRun(rs: seq<Ring>, steps: seq<Step>) {
    && |rs| == |steps| + 1
    && rs[0].produced == rs[0].consumed == rs[0].cached
    && forall i :: 0 <= i < |steps| ==> Legal(rs[i], steps[i]) && rs[i + 1] == Apply(rs[i], steps[i])
  }

  predicate Inv(r: Ring) {
    r.cached <= r.consumed <= r.produced <= r.cached + r.size
  }

  lemma InvMeaning(r: Ring)
    requires Inv(r)
    ensures Available(r) == r.produced - r.consumed
    ensures Free(r) == r.size - (r.produced - r.cached)
  {
    SubOfWrapped(r.produced, r.consumed);
    SubOfWrapped(r.produced, r.cached);
  }

  lemma {:induction false} RunInv(rs: seq<Ring>, steps: seq<Step>, i: nat)
    requires IsRun(rs, steps) && i < |rs|
    ensures Inv(rs[i]) && rs[i].size == rs[0].size
  {
    if i > 0 {
      RunInv(rs, steps, i - 1);
      InvMeaning(rs[i - 1]);
      assert rs[i] == Apply(rs[i - 1], steps[i - 1]);
    }
  }

  /** Wrap-around safety, for any run starting anywhere and wrapping any number of times:
      `ring_available` is the true number of unread entries, which never exceeds the size;
      `ring_free` is at most the true room, and exactly that when the cached consumer is current. */
  lemma WrapAroundSafe(rs: seq<Ring>, steps: seq<Step>, i: nat)
    requires IsRun(rs, steps) && i < |rs|
    ensures var r := rs[i];
            && r.consumed <= r.produced <= r.consumed + r.size
            && Available(r) == r.produced - r.consumed
            && Free(r) <= r.size - (r.produced - r.consumed)
            && (Free(r) == r.size - (r.produced - r.consumed) <==> r.cached == r.consumed)
  {
    RunInv(rs, steps, i);
    InvMeaning(rs[i]);
  }

  // ----- an arbitrary stale cache -----

  /** Outside such runs, with any cached value from the past, `ring_free` stays within the true room
      if and only if the staleness of the cache, reduced to 32 bits, leaves room in the 32-bit
      counters for the unread entries: the clamp does not help beyond a full wrap. */
  lemma StaleCacheSafeIff(r: Ring)
    requires r.cached <= r.consumed <= r.produced <= r.consumed + r.size
    ensures Free(r) <= r.size - (r.produced - r.consumed)
       <==> (r.consumed - r.cached) % MODULUS + (r.produced - r.consumed) < MODULUS
  {
    var stale, unread := r.consumed - r.cached, r.produced - r.consumed;
    WrapDifference(r.produced, r.cached);
    assert stale == (stale / MODULUS) * MODULUS + stale % MODULUS;
    if stale % MODULUS + unread < MODULUS {
      assert (stale + unread) % MODULUS == stale % MODULUS + unread;
    } else {
      assert (stale + unread) % MODULUS == stale % MODULUS + unread - MODULUS;
    }
  }

  /** In particular a cache less than a full wrap behind is always safe. */
  lemma RecentCacheIsSafe(r: Ring)
    requires r.cached <= r.consumed <= r.produced <= r.consumed + r.size
    requires r.produced - r.cached < MODULUS
    ensures Free(r) <= r.size - (r.produced - r.consumed)
  {
    StaleCacheSafeIff(r);
  }

  /** A cache exactly one wrap behind a full ring reports the whole ring as free. */
  lemma WrappedCacheOverruns()
    ensures var r := Ring(2048, MODULUS, MODULUS - 2048, 0);
            r.produced - r.consumed == r.size && Free(r) == r.size
  {
  }

  // ----- slots -----

  /** The slot of entry number `n`: its 32-bit counter masked to a power-of-two size. */
  function Slot(n: nat, size: nat): nat
    requires size > 0
  {
    Wrap(n) % size
  }

  lemma SlotIsRemainder(n: nat, size: nat)
    requires size > 0 && MODULUS % size == 0
    ensures Slot(n, size) == n % size
  {
    var q, k := n / MODULUS, MODULUS / size;
    assert n == Wrap(n) + q * MODULUS;
    assert MODULUS == k * size;
    MultipleOfSize(Wrap(n), q * k, size);
    assert q * MODULUS == (q * k) * size;
  }

  lemma {:induction false} MultipleOfSize(x: nat, m: nat, size: nat)
    requires size > 0
    ensures (x + m * size) % size == x % size
  {
    if m > 0 {
      MultipleOfSize(x, m - 1, size);
      assert x + m * size == (x + (m - 1) * size) + size;
      AddOnce(x + (m - 1) * size, size);
    }
  }

  lemma AddOnce(y: nat, size: nat)
    requires size > 0
    ensures (y + size) % size == y % size
  {
    var q, r := y / size, y % size;
    assert y + size == (q + 1) * size + r;
    UniqueRemainder(y + size, q + 1, r, size);
  }

  lemma MultiplesApart(a: int, b: int, size: nat)
    requires a < b
    ensures a * size + size <= b * size
  {
    assert b * size == a * size + size + (b - a - 1) * size;
  }

  lemma DivisionIdentity(n: nat, size: nat)
    requires size > 0
    ensures n == (n / size) * size + n % size && n % size < size
  {
  }

  lemma UniqueRemainder(n: nat, q: nat, r: nat, size: nat)
    requires size > 0 && n == q * size + r && r < size
    ensures n % size == r
  {
    DivisionIdentity(n, size);
    var q' := n / size;
    if q < q' {
      MultiplesApart(q, q', size);
    } else if q' < q {
      MultiplesApart(q', q, size);
    }
  }

  lemma SameRemainderFarApart(a: nat, b: nat, size: nat)
    requires size > 0 && a < b && a % size == b % size
    ensures b - a >= size
  {
    DivisionIdentity(a, size);
    DivisionIdentity(b, size);
    var qa, qb := a / size, b / size;
    if qb <= qa {
      if qb < qa {
        MultiplesApart(qb, qa, size);
      }
    } else {
      MultiplesApart(qa, qb, size);
    }
  }

  /** Unread entries never share a slot, across any wrap, because the size divides 2^32. */
  lemma SlotsAreDistinct(rs: seq<Ring>, steps: seq<Step>, i: nat, a: nat, b: nat)
    requires IsRun(rs, steps) && i < |rs|
    requires rs[i].size > 0 && MODULUS % rs[i].size == 0
    requires rs[i].consumed <= a < b < rs[i].produced
    ensures Slot(a, rs[i].size) != Slot(b, rs[i].size)
  {
    var size := rs[i].size;
    RunInv(rs, steps, i);
    SlotIsRemainder(a, size);
    SlotIsRemainder(b, size);
    if a % size == b % size {
      SameRemainderFarApart(a, b, size);
    }
  }
}
