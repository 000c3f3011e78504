/** The timed replay: rows leave a min-heap in tuple order, paced by their timestamps. */
module ItchReplay {
  import opened Bytes
  import opened Sequences

  /** (timestamp_ns, symbol, msg_type, raw_message); texts are sequences of code points. */
  datatype Row = Row(timestamp: int, symbol: seq<int>, messageType: int, raw: seq<Byte>)

  // ----- Python's tuple order -----

  predicate LexLeq(a: seq<int>, b: seq<int>) {
    a == [] || (b != [] && (a[0] < b[0] || (a[0] == b[0] && LexLeq(a[1..], b[1..]))))
  }

  lemma {:induction false} LexTotal(a: seq<int>, b: seq<int>)
    ensures LexLeq(a, b) || LexLeq(b, a)
  {
    if a != [] && b != [] {
      LexTotal(a[1..], b[1..]);
    }
  }

  lemma {:induction false} LexAntisymmetric(a: seq<int>, b: seq<int>)
    requires LexLeq(a, b) && LexLeq(b, a)
    ensures a == b
  {
    if a != [] && b != [] {
      LexAntisymmetric(a[1..], b[1..]);
      assert a == [a[0]] + a[1..] && b == [b[0]] + b[1..];
    }
  }

  lemma {:induction false} LexTransitive(a: seq<int>, b: seq<int>, c: seq<int>)
    requires LexLeq(a, b) && LexLeq(b, c)
    ensures LexLeq(a, c)
  {
    if a != [] && a[0] == b[0] == c[0] {
      LexTransitive(a[1..], b[1..], c[1..]);
    }
  }

  /** The first place where two sequences differ: there `a` ends, or has the smaller element. */
  ghost predicate Before(a: seq<int>, b: seq<int>) {
    exists k: nat :: BeforeAt(a, b, k)
  }

  ghost predicate BeforeAt(a: seq<int>, b: seq<int>, k: nat) {
    && k <= |a| && k < |b|
    && (forall i :: 0 <= i < k ==> a[i] == b[i])
    && (k == |a| || a[k] < b[k])
  }

  lemma {:induction false} LexMeaning(a: seq<int>, b: seq<int>)
    ensures LexLeq(a, b) <==> a == b || Before(a, b)
  {
    if a == [] {
      assert b != [] ==> BeforeAt(a, b, 0);
    } else if b != [] {
      if a[0] < b[0] {
        assert BeforeAt(a, b, 0);
      } else if a[0] == b[0] {
        LexMeaning(a[1..], b[1..]);
        assert a == [a[0]] + a[1..] && b == [b[0]] + b[1..];
        BeforeTail(a, b);
      } else {
        assert forall k: nat :: BeforeAt(a, b, k) ==> k == 0;
      }
    }
  }

  lemma BeforeTail(a: seq<int>, b: seq<int>)
    requires a != [] && b != [] && a[0] == b[0]
    ensures Before(a, b) <==> Before(a[1..], b[1..])
  {
    if k: nat :| BeforeAt(a, b, k) {
      assert BeforeAt(a[1..], b[1..], k - 1);
    }
    if k: nat :| BeforeAt(a[1..], b[1..], k) {
      assert forall i :: 0 < i < k + 1 ==> a[i] == a[1..][i - 1] && b[i] == b[1..][i - 1];
      assert BeforeAt(a, b, k + 1);
    }
  }

  /** The time decides, then the symbol, then the type, then the payload; within a text the first
      differing character, a prefix coming first. */
  lemma RowMeaning(a: Row, b: Row)
    ensures RowLeq(a, b) <==>
              || a == b
              || a.timestamp < b.timestamp
              || (a.timestamp == b.timestamp &&
                    (|| Before(a.symbol, b.symbol)
                     || (a.symbol == b.symbol &&
                           (|| a.messageType < b.messageType
                            || (a.messageType == b.messageType && Before(a.raw, b.raw))))))
  {
    LexMeaning(a.symbol, b.symbol);
    LexMeaning(a.raw, b.raw);
    NotBeforeItself(a.symbol);
  }

  lemma NotBeforeItself(a: seq<int>)
    ensures !Before(a, a)
  {
  }

  /** Lexicographic on the four components. */
  predicate RowLeq(a: Row, b: Row) {
    if a.timestamp != b.timestamp then a.timestamp < b.timestamp
    else if a.symbol != b.symbol then LexLeq(a.symbol, b.symbol)
    else if a.messageType != b.messageType then a.messageType < b.messageType
    else LexLeq(a.raw, b.raw)
  }

  lemma RowTotal(a: Row, b: Row)
    ensures RowLeq(a, b) || RowLeq(b, a)
  {
    LexTotal(a.symbol, b.symbol);
    LexTotal(a.raw, b.raw);
  }

  lemma RowAntisymmetric(a: Row, b: Row)
    requires RowLeq(a, b) && RowLeq(b, a)
    ensures a == b
  {
    if a.symbol != b.symbol {
      LexAntisymmetric(a.symbol, b.symbol);
    } else {
      LexAntisymmetric(a.raw, b.raw);
    }
  }

  lemma RowTransitive(a: Row, b: Row, c: Row)
    requires RowLeq(a, b) && RowLeq(b, c)
    ensures RowLeq(a, c)
  {
    if a.timestamp == b.timestamp == c.timestamp {
      if a.symbol == b.symbol == c.symbol {
        if a.messageType == b.messageType == c.messageType {
          LexTransitive(a.raw, b.raw, c.raw);
        }
      } else if a.symbol != b.symbol && b.symbol != c.symbol {
        LexTransitive(a.symbol, b.symbol, c.symbol);
        if a.symbol == c.symbol {
          LexAntisymmetric(a.symbol, b.symbol);
        }
      }
    }
  }

  ghost predicate IsSorted(s: seq<Row>) {
    forall i, j :: 0 <= i < j < |s| ==> RowLeq(s[i], s[j])
  }

  ghost predicate IsPermutation(s: seq<Row>, t: seq<Row>) {
    multiset(s) == multiset(t)
  }

  // ----- the heap, by its contract -----

  /** heappop: removes a least row. The heap's inner layout does not matter. */
  method PopLeast(heap: seq<Row>) returns (least: Row, rest: seq<Row>)
    requires heap != []
    ensures multiset(heap) == multiset(rest) + multiset{least}
    ensures |rest| + 1 == |heap|
    ensures forall r :: r in rest ==> RowLeq(least, r)
  {
    hide RowLeq;
    var best := 0;
    RowTotal(heap[0], heap[0]);
    for i := 1 to |heap|
      invariant 0 <= best < i
      invariant forall j :: 0 <= j < i ==> RowLeq(heap[best], heap[j])
    {
      RowTotal(heap[best], heap[i]);
      RowTotal(heap[i], heap[i]);
      if !RowLeq(heap[best], heap[i]) {
        forall j | 0 <= j < i ensures RowLeq(heap[i], heap[j]) {
          RowTransitive(heap[i], heap[best], heap[j]);
        }
        best := i;
      }
    }
    least, rest := heap[best], heap[..best] + heap[best + 1..];
    TakenOut(heap, best);
  }

  lemma TakenOut(heap: seq<Row>, i: nat)
    requires i < |heap|
    ensures var rest := heap[..i] + heap[i + 1..];
            && multiset(heap) == multiset(rest) + multiset{heap[i]}
            && forall r :: r in rest ==> r in heap
  {
    assert heap == heap[..i] + [heap[i]] + heap[i + 1..];
  }

  // ----- the sent sequence is a prefix of the sorted order -----

  /** What the pop loop keeps: `sent` is sorted and below everything still in `heap`, and the two
      together are the loaded rows. */
  ghost predicate Popped(rows: seq<Row>, sent: seq<Row>, heap: seq<Row>) {
    && multiset(rows) == multiset(sent) + multiset(heap)
    && IsSorted(sent)
    && forall s, r :: s in sent && r in heap ==> RowLeq(s, r)
  }

  lemma PopKeepsOrder(rows: seq<Row>, sent: seq<Row>, heap: seq<Row>, least: Row, rest: seq<Row>)
    requires Popped(rows, sent, heap)
    requires multiset(heap) == multiset(rest) + multiset{least}
    requires forall r :: r in rest ==> RowLeq(least, r)
    ensures Popped(rows, sent + [least], rest)
    ensures least in rows
  {
    assert least in multiset(heap) && least in heap;
    forall r | r in rest ensures r in heap {
      assert r in multiset(rest) && r in multiset(heap);
    }
    assert least in multiset(rows);
    assert multiset(sent + [least]) == multiset(sent) + multiset{least};
    forall i | 0 <= i < |sent| ensures RowLeq(sent[i], least) {
      assert sent[i] in sent;
    }
  }

  /** Two rows that are each below all of the other's sequence agree. */
  lemma SameHead(s: seq<Row>, t: seq<Row>, all: multiset<Row>)
    requires s != [] && t != [] && IsSorted(t)
    requires multiset(t) == all && s[0] in all
    requires forall r :: r in all ==> RowLeq(s[0], r)
    ensures s[0] == t[0]
  {
    assert t[0] in multiset(t);
    assert s[0] in t;
    var i :| 0 <= i < |t| && t[i] == s[0];
    if i > 0 {
      RowAntisymmetric(s[0], t[0]);
    }
  }

  /** There is one sorted order of the loaded rows, and `sent` is a prefix of it. */
  lemma {:induction false} SentIsPrefix(rows: seq<Row>, sent: seq<Row>, heap: seq<Row>, sorted: seq<Row>)
    requires Popped(rows, sent, heap)
    requires IsSorted(sorted) && IsPermutation(sorted, rows)
    ensures sent <= sorted
    decreases |sent|
  {
    if sent != [] {
      var all := multiset(rows);
      assert sent[0] in multiset(sent) && sent[0] in all;
      assert |sorted| == |multiset(sorted)| == |all| > 0;
      forall r | r in all ensures RowLeq(sent[0], r) {
        FirstIsLeast(rows, sent, heap, r);
      }
      SameHead(sent, sorted, all);
      assert sent == [sent[0]] + sent[1..] && sorted == [sorted[0]] + sorted[1..];
      TailPopped(rows, sent, heap, sorted);
      SentIsPrefix(sorted[1..], sent[1..], heap, sorted[1..]);
    }
  }

  lemma FirstIsLeast(rows: seq<Row>, sent: seq<Row>, heap: seq<Row>, r: Row)
    requires Popped(rows, sent, heap) && sent != [] && r in multiset(rows)
    ensures RowLeq(sent[0], r)
  {
    if r in heap {
      assert sent[0] in sent;
    } else {
      assert r !in multiset(heap);
      assert r in multiset(sent) && r in sent;
      var i :| 0 <= i < |sent| && sent[i] == r;
      RowTotal(r, r);
    }
  }

  lemma TailPopped(rows: seq<Row>, sent: seq<Row>, heap: seq<Row>, sorted: seq<Row>)
    requires Popped(rows, sent, heap) && IsPermutation(sorted, rows)
    requires sent != [] && sorted != [] && sent[0] == sorted[0]
    ensures Popped(sorted[1..], sent[1..], heap)
  {
    WithoutHead(sent);
    WithoutHead(sorted);
    RemoveFromSum(multiset(sent), multiset(heap), sent[0]);
    forall i, j | 0 <= i < j < |sent[1..]| ensures RowLeq(sent[1..][i], sent[1..][j]) {
      assert sent[1..][i] == sent[i + 1] && sent[1..][j] == sent[j + 1];
    }
  }

  lemma WithoutHead(s: seq<Row>)
    requires s != []
    ensures multiset(s[1..]) == multiset(s) - multiset{s[0]} && s[0] in multiset(s)
  {
    assert s == [s[0]] + s[1..];
  }

  lemma RemoveFromSum(a: multiset<Row>, b: multiset<Row>, x: Row)
    requires x in a
    ensures (a + b) - multiset{x} == (a - multiset{x}) + b
  {
  }

  // ----- pacing -----

  /** The scaled gap between two timestamps, in seconds. */
  function Gap(from: int, to: int, speed: real): real
    requires speed > 0.0
  {
    ((to - from) as real / 1000000000.0) / speed
  }

  const MAX_SLEEP: real := 0.5

  /** The sleep between two consecutive messages: capped, and skipped when not positive. */
  function SleepFor(from: int, to: int, speed: real): real
    requires speed > 0.0
  {
    var s := if Gap(from, to, speed) < MAX_SLEEP then Gap(from, to, speed) else MAX_SLEEP;
    if s > 0.0 then s else 0.0
  }

  /** All timestamp-based sleeping while the rows are sent. */
  function TotalSleep(rows: seq<Row>, speed: real): real
    requires speed > 0.0
  {
    if |rows| < 2 then 0.0
    else
      var n := |rows| - 1;
      TotalSleep(rows[..n], speed) + SleepFor(rows[n - 1].timestamp, rows[n].timestamp, speed)
  }

  predicate NoGapCapped(rows: seq<Row>, speed: real)
    requires speed > 0.0
  {
    forall i :: 1 <= i < |rows| ==> Gap(rows[i - 1].timestamp, rows[i].timestamp, speed) <= 0.5
  }

  lemma GapsAdd(a: int, b: int, c: int, speed: real)
    requires speed > 0.0
    ensures Gap(a, b, speed) + Gap(b, c, speed) == Gap(a, c, speed)
  {
    var x, y := (b - a) as real / 1000000000.0, (c - b) as real / 1000000000.0;
    assert x + y == (c - a) as real / 1000000000.0;
    assert x / speed + y / speed == (x + y) / speed;
  }

  lemma GapNonNegative(a: int, b: int, speed: real)
    requires speed > 0.0 && a <= b
    ensures Gap(a, b, speed) >= 0.0
  {
  }

  /** Replay pacing: every sleep lies in [0, 0.5], and together they are at most the scaled span of
      the sent messages, with equality exactly when no scaled gap exceeds half a second. */
  lemma {:induction false} PacingBound(rows: seq<Row>, speed: real)
    requires speed > 0.0 && rows != [] && IsSorted(rows)
    ensures forall i :: 1 <= i < |rows| ==>
              0.0 <= SleepFor(rows[i - 1].timestamp, rows[i].timestamp, speed) <= 0.5
    ensures var span := Gap(rows[0].timestamp, rows[|rows| - 1].timestamp, speed);
            TotalSleep(rows, speed) <= span && (TotalSleep(rows, speed) == span <==> NoGapCapped(rows, speed))
  {
    hide Gap, RowLeq;
    var n := |rows| - 1;
    if n == 0 {
      GapsAdd(rows[0].timestamp, rows[0].timestamp, rows[0].timestamp, speed);
    } else {
      PacingBound(rows[..n], speed);
      SortedTimestamps(rows, n - 1, n);
      GapNonNegative(rows[n - 1].timestamp, rows[n].timestamp, speed);
      GapsAdd(rows[0].timestamp, rows[n - 1].timestamp, rows[n].timestamp, speed);
      assert NoGapCapped(rows, speed) <==>
          NoGapCapped(rows[..n], speed) && Gap(rows[n - 1].timestamp, rows[n].timestamp, speed) <= MAX_SLEEP;
    }
  }

  /** A gap of at least half a second sleeps half a second, a shorter one its own length, and a step
      back in time not at all. */
  lemma SleepMeaning(from: int, to: int, speed: real)
    requires speed > 0.0
    ensures Gap(from, to, speed) >= 0.5 ==> SleepFor(from, to, speed) == 0.5
    ensures 0.0 <= Gap(from, to, speed) <= 0.5 ==> SleepFor(from, to, speed) == Gap(from, to, speed)
    ensures Gap(from, to, speed) <= 0.0 ==> SleepFor(from, to, speed) == 0.0
  {
    hide Gap;
  }

  /** The unit: at speed 1 a billion apart is one second, and the speed divides. */
  lemma GapUnit(from: int, seconds: int, speed: real)
    requires speed > 0.0
    ensures Gap(from, from + seconds * 1000000000, 1.0) == seconds as real
    ensures Gap(from, from + seconds * 1000000000, speed) * speed == seconds as real
  {
    assert ((from + seconds * 1000000000) - from) as real / 1000000000.0 == seconds as real;
    DivideBack(seconds as real, speed);
  }

  lemma DivideBack(x: real, y: real)
    requires y > 0.0
    ensures (x / y) * y == x
  {
  }

  /** By how much the gaps above half a second exceed it, in all. */
  function Excess(rows: seq<Row>, speed: real): real
    requires speed > 0.0
  {
    if |rows| < 2 then 0.0
    else
      var n := |rows| - 1;
      var gap := Gap(rows[n - 1].timestamp, rows[n].timestamp, speed);
      Excess(rows[..n], speed) + (if gap > 0.5 then gap - 0.5 else 0.0)
  }

  /** The exact time slept: the scaled span less the excess of the gaps that are capped. */
  lemma {:induction false} SleepIsSpanLessExcess(rows: seq<Row>, speed: real)
    requires speed > 0.0 && rows != [] && IsSorted(rows)
    ensures TotalSleep(rows, speed)
         == Gap(rows[0].timestamp, rows[|rows| - 1].timestamp, speed) - Excess(rows, speed)
  {
    hide Gap, RowLeq, SleepFor;
    var n := |rows| - 1;
    if n == 0 {
      GapsAdd(rows[0].timestamp, rows[0].timestamp, rows[0].timestamp, speed);
    } else {
      SleepIsSpanLessExcess(rows[..n], speed);
      SortedTimestamps(rows, n - 1, n);
      GapNonNegative(rows[n - 1].timestamp, rows[n].timestamp, speed);
      SleepMeaning(rows[n - 1].timestamp, rows[n].timestamp, speed);
      GapsAdd(rows[0].timestamp, rows[n - 1].timestamp, rows[n].timestamp, speed);
    }
  }

  lemma SortedTimestamps(rows: seq<Row>, i: nat, j: nat)
    requires IsSorted(rows) && i < j < |rows|
    ensures rows[i].timestamp <= rows[j].timestamp
  {
    assert RowLeq(rows[i], rows[j]);
  }

  lemma TotalSleepNext(rows: seq<Row>, row: Row, speed: real)
    requires speed > 0.0
    ensures TotalSleep(rows + [row], speed)
         == TotalSleep(rows, speed)
            + (if rows == [] then 0.0 else SleepFor(rows[|rows| - 1].timestamp, row.timestamp, speed))
  {
    assert (rows + [row])[..|rows|] == rows;
  }

  lemma NothingPopped(rows: seq<Row>)
    ensures Popped(rows, [], rows)
  {
  }

  lemma PoppedSoFar(rows: seq<Row>, sent: seq<Row>, heap: seq<Row>)
    requires Popped(rows, sent, heap)
    ensures IsSorted(sent)
    ensures heap == [] ==> IsPermutation(sent, rows)
    ensures forall sorted :: IsSorted(sorted) && IsPermutation(sorted, rows) ==> sent <= sorted
  {
    forall sorted | IsSorted(sorted) && IsPermutation(sorted, rows) ensures sent <= sorted {
      SentIsPrefix(rows, sent, heap, sorted);
    }
  }

  /** The pause before `to`, after a message stamped `from`. */
  method Pause(from: int, to: int, speed: real) returns (slept: real)
    requires speed > 0.0
    ensures slept == SleepFor(from, to, speed)
  {
    slept := 0.0;
    var pause := ((to - from) as real / 1000000000.0) / speed;
    if MAX_SLEEP < pause {
      pause := MAX_SLEEP;
    }
    if pause > 0.0 {
      slept := pause;
    }
  }

  // ----- the simulator -----

  function Zeroed(m: map<seq<int>, nat>, symbols: seq<seq<int>>): map<seq<int>, nat> {
    if symbols == [] then m else Zeroed(m, symbols[..|symbols| - 1])[symbols[|symbols| - 1] := 0]
  }

  lemma {:induction false} ZeroedHasAll(m: map<seq<int>, nat>, symbols: seq<seq<int>>)
    ensures forall s :: s in symbols ==> s in Zeroed(m, symbols)
  {
    if symbols != [] {
      var n := |symbols| - 1;
      ZeroedHasAll(m, symbols[..n]);
      assert symbols == symbols[..n] + [symbols[n]];
    }
  }

  lemma SumAfterZero(m: map<seq<int>, nat>, s: seq<int>)
    ensures SumValues(m[s := 0]) == SumValues(m) - CountOf(m, s)
  {
    var z := m[s := 0];
    SumValuesRemove(z, s);
    if s in m {
      SumValuesRemove(m, s);
      assert z - {s} == m - {s};
    } else {
      assert z - {s} == m;
    }
  }

  /** Resetting loses exactly what the replayed symbols had counted. */
  lemma {:induction false} ResetLoses(m: map<seq<int>, nat>, symbols: seq<seq<int>>)
    ensures SumValues(Zeroed(m, symbols)) <= SumValues(m)
    ensures SumValues(Zeroed(m, symbols)) == SumValues(m) <==> forall s :: s in symbols ==> CountOf(m, s) == 0
    ensures forall s :: CountOf(Zeroed(m, symbols), s) == if s in symbols then 0 else CountOf(m, s)
  {
    if symbols != [] {
      var n := |symbols| - 1;
      ResetLoses(m, symbols[..n]);
      SumAfterZero(Zeroed(m, symbols[..n]), symbols[n]);
      assert symbols == symbols[..n] + [symbols[n]];
    }
  }

  /** Three counters that agreed before a replay agree after it, whenever it is stopped, if and only
      if no replayed symbol had been counted already: the per-symbol counters are reset, the other
      two are not. In particular they agree after the first replay of a new object. */
  lemma CountersAgreeIff(
    symbols: seq<seq<int>>, total0: nat, symbols0: map<seq<int>, nat>, symbols1: map<seq<int>, nat>,
    types0: map<int, nat>, types1: map<int, nat>, sent: seq<Row>)
    requires total0 == SumValues(symbols0) == SumValues(types0)
    requires Counted(Zeroed(symbols0, symbols), symbols1, types0, types1, sent)
    ensures total0 + |sent| == SumValues(types1)
    ensures total0 + |sent| == SumValues(symbols1) <==> forall s :: s in symbols ==> CountOf(symbols0, s) == 0
  {
    ResetLoses(symbols0, symbols);
  }

  function SymbolCount(rows: seq<Row>, symbol: seq<int>): nat {
    if rows == [] then 0
    else SymbolCount(rows[..|rows| - 1], symbol) + (if rows[|rows| - 1].symbol == symbol then 1 else 0)
  }

  function TypeCount(rows: seq<Row>, messageType: int): nat {
    if rows == [] then 0
    else TypeCount(rows[..|rows| - 1], messageType) + (if rows[|rows| - 1].messageType == messageType then 1 else 0)
  }

  /** The counters have grown by exactly the rows sent: symbol by symbol, type by type, in all. */
  ghost predicate Counted(
    symbols0: map<seq<int>, nat>, symbols1: map<seq<int>, nat>,
    types0: map<int, nat>, types1: map<int, nat>, sent: seq<Row>)
  {
    && symbols1.Keys == symbols0.Keys
    && (forall s :: CountOf(symbols1, s) == CountOf(symbols0, s) + SymbolCount(sent, s))
    && (forall t :: CountOf(types1, t) == CountOf(types0, t) + TypeCount(sent, t))
    && SumValues(symbols1) == SumValues(symbols0) + |sent|
    && SumValues(types1) == SumValues(types0) + |sent|
  }

  lemma NothingCounted(symbols: map<seq<int>, nat>, types: map<int, nat>)
    ensures Counted(symbols, symbols, types, types, [])
  {
  }

  lemma CountedNext(
    symbols0: map<seq<int>, nat>, symbols1: map<seq<int>, nat>,
    types0: map<int, nat>, types1: map<int, nat>, sent: seq<Row>, row: Row)
    requires Counted(symbols0, symbols1, types0, types1, sent) && row.symbol in symbols1
    ensures Counted(symbols0, symbols1[row.symbol := symbols1[row.symbol] + 1],
                    types0, types1[row.messageType := CountOf(types1, row.messageType) + 1], sent + [row])
  {
    SumValuesIncrement(symbols1, row.symbol);
    SumValuesIncrement(types1, row.messageType);
    assert (sent + [row])[..|sent|] == sent;
  }

  class LiveFeedSimulator {
    var running: bool
    var totalSent: nat
    var perSymbol: map<seq<int>, nat>
    var perType: map<int, nat>

    constructor ()
      ensures running && totalSent == 0 && perSymbol == map[] && perType == map[]
    {
      running, totalSent, perSymbol, perType := true, 0, map[], map[];
    }

    /** The per-symbol counters are set to zero for the symbols replayed. */
    method ResetSymbols(symbols: seq<seq<int>>)
      modifies this`perSymbol
      ensures perSymbol == Zeroed(old(perSymbol), symbols)
    {
      for i := 0 to |symbols|
        invariant perSymbol == Zeroed(old(perSymbol), symbols[..i])
      {
        perSymbol := perSymbol[symbols[i] := 0];
        assert symbols[..i + 1][..i] == symbols[..i];
      }
      assert symbols[..|symbols|] == symbols;
    }

    method CountSent(row: Row)
      requires row.symbol in perSymbol
      modifies this`totalSent, this`perSymbol, this`perType
      ensures totalSent == old(totalSent) + 1
      ensures perSymbol == old(perSymbol)[row.symbol := old(perSymbol)[row.symbol] + 1]
      ensures perType == old(perType)[row.messageType := CountOf(old(perType), row.messageType) + 1]
    {
      totalSent := totalSent + 1;
      perSymbol := perSymbol[row.symbol := perSymbol[row.symbol] + 1];
      perType := perType[row.messageType := CountOf(perType, row.messageType) + 1];
    }

    /** The replay loop over rows loaded for `symbols`. The signal handler clears `running` before
        loop test number `signalAt`; nothing sets it again, so a later call sends nothing. Whenever that is, a prefix of the one sorted order of the rows
        has been sent, and the three counters have each grown by the number sent. */
    method Replay(rows: seq<Row>, symbols: seq<seq<int>>, speed: real, signalAt: nat)
      returns (sent: seq<Row>, slept: real)
      requires forall r :: r in rows ==> r.symbol in symbols
      modifies this
      ensures |sent| == if !old(running) then 0 else if signalAt < |rows| then signalAt else |rows|
      ensures running <==> old(running) && |sent| < signalAt
      ensures IsSorted(sent)
      ensures forall sorted :: IsSorted(sorted) && IsPermutation(sorted, rows) ==> sent <= sorted
      ensures |sent| == |rows| ==> IsPermutation(sent, rows)
      ensures slept == if speed > 0.0 then TotalSleep(sent, speed) else 0.0
      ensures totalSent == old(totalSent) + |sent|
      ensures Counted(Zeroed(old(perSymbol), symbols), perSymbol, old(perType), perType, sent)
    {
      hide Counted, Popped, TotalSleep, SumValues, Zeroed, RowLeq, IsSorted, IsPermutation;
      NothingPopped(rows);
      NoSleepYet(speed);
      ResetSymbols(symbols);
      ZeroedHasAll(old(perSymbol), symbols);
      NothingCounted(perSymbol, perType);
      var heap := rows;
      var last: Option<int> := None;
      sent, slept := [], 0.0;
      if signalAt == 0 {
        running := false;
      }
      while heap != [] && running
        invariant |sent| + |heap| == |rows| && |sent| <= signalAt
        invariant running <==> old(running) && |sent| < signalAt
        invariant !running && !old(running) ==> sent == []
        invariant Popped(rows, sent, heap)
        invariant last == if sent == [] then None else Some(sent[|sent| - 1].timestamp)
        invariant slept == if speed > 0.0 then TotalSleep(sent, speed) else 0.0
        invariant perSymbol.Keys == Zeroed(old(perSymbol), symbols).Keys
        invariant totalSent == old(totalSent) + |sent|
        invariant Counted(Zeroed(old(perSymbol), symbols), perSymbol, old(perType), perType, sent)
        decreases |heap|
      {
        var row, rest := PopLeast(heap);
        PopKeepsOrder(rows, sent, heap, row, rest);
        if speed > 0.0 {
          TotalSleepNext(sent, row, speed);
          if last.Some? {
            var pause := Pause(last.value, row.timestamp, speed);
            slept := slept + pause;
          }
        }
        CountedNext(Zeroed(old(perSymbol), symbols), perSymbol, old(perType), perType, sent, row);
        CountSent(row);
        heap, sent := rest, sent + [row];
        last := Some(row.timestamp);
        if |sent| == signalAt {
          running := false;
        }
      }
      PoppedSoFar(rows, sent, heap);
    }
  }

  /** A new simulator that replays any rows twice: it counts every message in `totalSent`, but only
      those of the second replay by symbol. */
  method ReplayTwice(rows: seq<Row>, symbols: seq<seq<int>>, speed: real) returns (simulator: LiveFeedSimulator)
    requires rows != [] && forall r :: r in rows ==> r.symbol in symbols
    ensures fresh(simulator) && simulator.totalSent == SumValues(simulator.perType) == 2 * |rows|
    ensures SumValues(simulator.perSymbol) == |rows| != simulator.totalSent
  {
    hide SumValues, Zeroed, TotalSleep, IsSorted, IsPermutation, SymbolCount, TypeCount;
    simulator := new LiveFeedSimulator();
    AllZero<int>(map[]);
    ResetLosesAll(map[], symbols);
    ZeroedKeys(map[], symbols);
    var sent, slept := simulator.Replay(rows, symbols, speed, |rows| + 1);
    ghost var once := simulator.perSymbol;
    sent, slept := simulator.Replay(rows, symbols, speed, |rows| + 1);
    ResetLosesAll(once, symbols);
  }

  lemma {:induction false} ZeroedKeys(m: map<seq<int>, nat>, symbols: seq<seq<int>>)
    ensures Zeroed(m, symbols).Keys == m.Keys + set s | s in symbols
  {
    if symbols != [] {
      var n := |symbols| - 1;
      ZeroedKeys(m, symbols[..n]);
      assert symbols == symbols[..n] + [symbols[n]];
    }
  }

  /** Once all keys are among the symbols replayed, the reset leaves nothing. */
  lemma ResetLosesAll(m: map<seq<int>, nat>, symbols: seq<seq<int>>)
    requires forall s :: s in m ==> s in symbols
    ensures SumValues(Zeroed(m, symbols)) == 0
  {
    ResetLoses(m, symbols);
    var z := Zeroed(m, symbols);
    forall s | s in z ensures z[s] == 0 {
      assert CountOf(z, s) == 0;
    }
    AllZero(z);
  }

  lemma {:induction false} AllZero<K>(m: map<K, nat>)
    requires forall k :: k in m ==> m[k] == 0
    ensures SumValues(m) == 0
    decreases |m|
  {
    if k :| k in m {
      SumValuesRemove(m, k);
      AllZero(m - {k});
    } else {
      assert m == map[];
    }
  }

  lemma NoSleepYet(speed: real)
    ensures speed > 0.0 ==> TotalSleep([], speed) == 0.0
  {
  }
}
