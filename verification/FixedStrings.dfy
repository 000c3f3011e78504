/** Strings in fixed-size char arrays of structures that live in shared memory. */
module FixedStrings {

  const NUL: char := '\0'

  /** The bytes of `s.c_str()` that a C function sees: up to the first NUL. */
  function CString(s: string): string {
    if s == [] || s[0] == NUL then [] else [s[0]] + CString(s[1..])
  }

  function Zeros(n: nat): (z: string)
    ensures |z| == n && forall i :: 0 <= i < n ==> z[i] == NUL
  {
    seq(n, _ => NUL)
  }

  /** The part of a string that fits a buffer. */
  function Kept(s: string, capacity: nat): (k: string)
    requires capacity > 0
    ensures |k| < capacity
  {
    var c := CString(s);
    if |c| < capacity then c else c[..capacity - 1]
  }

  /** The whole buffer after a set: no byte of it depends on what was there before. */
  function Stored(s: string, capacity: nat): (b: string)
    requires capacity > 0
    ensures |b| == capacity
  {
    Kept(s, capacity) + Zeros(capacity - |Kept(s, capacity)|)
  }

  predicate Terminated(b: string) {
    NUL in b
  }

  lemma {:induction false} CStringMeaning(s: string)
    ensures CString(s) <= s && NUL !in CString(s)
    ensures CString(s) == s || s[|CString(s)|] == NUL
    ensures CString(s) == s <==> NUL !in s
  {
    if s != [] && s[0] != NUL {
      CStringMeaning(s[1..]);
      assert s == [s[0]] + s[1..];
    }
  }

  /** The first NUL ends the C string. */
  lemma {:induction false} CStringOf(t: string, rest: string)
    requires NUL !in t && rest != [] && rest[0] == NUL
    ensures CString(t + rest) == t
  {
    if t == [] {
      assert t + rest == rest;
    } else {
      assert (t + rest)[1..] == t[1..] + rest;
      assert t == [t[0]] + t[1..];
      CStringOf(t[1..], rest);
    }
  }

  /** Set then get: the prefix up to the first NUL or capacity minus one; the buffer is terminated;
      and the round trip is the identity if and only if the string is NUL-free and shorter than the
      capacity. */
  lemma SetThenGet(s: string, capacity: nat)
    requires capacity > 0
    ensures Terminated(Stored(s, capacity))
    ensures CString(Stored(s, capacity)) == Kept(s, capacity)
    ensures CString(Stored(s, capacity)) == s <==> NUL !in s && |s| < capacity
  {
    var kept := Kept(s, capacity);
    CStringMeaning(s);
    assert NUL !in kept;
    CStringOf(kept, Zeros(capacity - |kept|));
    assert Stored(s, capacity)[capacity - 1] == NUL;
  }

  /** A NUL-free string that does not fit is cut to capacity minus one characters; one that fits is
      kept whole; and every byte behind it is NUL. */
  lemma StoredBytes(s: string, capacity: nat)
    requires capacity > 0 && NUL !in s
    ensures var n := if |s| < capacity then |s| else capacity - 1;
            && CString(Stored(s, capacity)) == s[..n]
            && Stored(s, capacity)[..n] == s[..n]
            && forall i :: n <= i < capacity ==> Stored(s, capacity)[i] == '\0'
  {
    SetThenGet(s, capacity);
    CStringMeaning(s);
    assert s[..|s|] == s;
  }

  /** Setting what was read back changes nothing. */
  lemma GetThenSet(s: string, capacity: nat)
    requires capacity > 0
    ensures Stored(CString(Stored(s, capacity)), capacity) == Stored(s, capacity)
  {
    SetThenGet(s, capacity);
    CStringMeaning(s);
    CStringMeaning(Kept(s, capacity));
  }

  // ----- the C functions -----

  lemma CStringStep(s: string, i: nat)
    requires i <= |CString(s)|
    ensures i <= |s|
    ensures i < |CString(s)| <==> i < |s| && s[i] != NUL
    ensures i < |CString(s)| ==> CString(s)[i] == s[i]
  {
    CStringMeaning(s);
    if i < |CString(s)| {
      assert CString(s)[i] in CString(s);
    }
  }

  /** strncpy(dest, s.c_str(), capacity - 1); dest[capacity - 1] = 0. */
  method SetBuffer(dest: array<char>, s: string)
    requires dest.Length > 0
    modifies dest
    ensures dest[..] == Stored(s, dest.Length)
  {
    var n := dest.Length - 1;
    var i := 0;
    CStringStep(s, 0);
    while i < n && i < |s| && s[i] != NUL
      invariant 0 <= i <= n && i <= |CString(s)| && i <= |s|
      invariant dest[..i] == CString(s)[..i]
    {
      CStringStep(s, i);
      dest[i] := s[i];
      i := i + 1;
      assert dest[..i] == dest[..i - 1] + [s[i - 1]];
      CStringStep(s, i);
    }
    CStringStep(s, i);
    ghost var kept := i;
    assert dest[..kept] == Kept(s, dest.Length);
    while i < n
      invariant kept <= i <= n
      invariant dest[..kept] == Kept(s, dest.Length)
      invariant forall j :: kept <= j < i ==> dest[j] == NUL
    {
      dest[i] := NUL;
      i := i + 1;
    }
    dest[n] := NUL;
    assert dest[..] == dest[..kept] + Zeros(dest.Length - kept);
  }

  /** std::string(buffer): copies up to the terminator. */
  method GetBuffer(src: array<char>) returns (s: string)
    requires Terminated(src[..])
    ensures s == CString(src[..])
  {
    ghost var b := src[..];
    var i := 0;
    CStringMeaning(b);
    CStringStep(b, 0);
    while src[i] != NUL
      invariant 0 <= i < src.Length && i <= |CString(b)|
      decreases src.Length - i
    {
      CStringStep(b, i);
      i := i + 1;
      CStringStep(b, i);
      assert |CString(b)| < |b|;
    }
    CStringStep(b, i);
    s := src[..i];
    assert CString(b) == b[..i];
  }

  // ----- the structures -----

  const SYMBOL_MAX_LEN: nat := 16
  const ORDER_ID_MAX_LEN: nat := 32
  const EXEC_ID_MAX_LEN: nat := 32

  class BboData {
    const symbol: array<char>

    ghost predicate Valid()
      reads this, symbol
    {
      symbol.Length == 16 && Terminated(symbol[..])
    }

    constructor ()
      ensures Valid() && fresh(symbol) && symbol[..] == Zeros(SYMBOL_MAX_LEN)
    {
      symbol := new char[SYMBOL_MAX_LEN](_ => NUL);
      new;
      assert symbol[0] == NUL;
    }

    method SetSymbol(s: string)
      requires Valid()
      modifies symbol
      ensures Valid() && symbol[..] == Stored(s, SYMBOL_MAX_LEN)
    {
      SetBuffer(symbol, s);
      SetThenGet(s, SYMBOL_MAX_LEN);
    }

    method GetSymbol() returns (s: string)
      requires Valid()
      ensures s == CString(symbol[..])
    {
      s := GetBuffer(symbol);
    }
  }

  class OrderRequest {
    const orderId: array<char>
    const symbol: array<char>

    ghost predicate Valid()
      reads this, orderId, symbol
    {
      && orderId != symbol
      && orderId.Length == 32 && Terminated(orderId[..])
      && symbol.Length == 16 && Terminated(symbol[..])
    }

    constructor ()
      ensures Valid() && fresh(orderId) && fresh(symbol)
      ensures orderId[..] == Zeros(ORDER_ID_MAX_LEN) && symbol[..] == Zeros(SYMBOL_MAX_LEN)
    {
      orderId := new char[ORDER_ID_MAX_LEN](_ => NUL);
      symbol := new char[SYMBOL_MAX_LEN](_ => NUL);
      new;
      assert orderId[0] == NUL && symbol[0] == NUL;
    }

    method SetOrderId(s: string)
      requires Valid()
      modifies orderId
      ensures Valid() && orderId[..] == Stored(s, ORDER_ID_MAX_LEN)
    {
      SetBuffer(orderId, s);
      SetThenGet(s, ORDER_ID_MAX_LEN);
    }

    method SetSymbol(s: string)
      requires Valid()
      modifies symbol
      ensures Valid() && symbol[..] == Stored(s, SYMBOL_MAX_LEN)
    {
      SetBuffer(symbol, s);
      SetThenGet(s, SYMBOL_MAX_LEN);
    }

    method GetOrderId() returns (s: string)
      requires Valid()
      ensures s == CString(orderId[..])
    {
      s := GetBuffer(orderId);
    }

    method GetSymbol() returns (s: string)
      requires Valid()
      ensures s == CString(symbol[..])
    {
      s := GetBuffer(symbol);
    }
  }

  class FillNotification {
    const orderId: array<char>
    const execId: array<char>
    const symbol: array<char>

    ghost predicate Valid()
      reads this, orderId, execId, symbol
    {
      && orderId != execId && orderId != symbol && execId != symbol
      && orderId.Length == 32 && Terminated(orderId[..])
      && execId.Length == 32 && Terminated(execId[..])
      && symbol.Length == 16 && Terminated(symbol[..])
    }

    constructor ()
      ensures Valid() && fresh(orderId) && fresh(execId) && fresh(symbol)
      ensures orderId[..] == Zeros(ORDER_ID_MAX_LEN) && execId[..] == Zeros(EXEC_ID_MAX_LEN)
      ensures symbol[..] == Zeros(SYMBOL_MAX_LEN)
    {
      orderId := new char[ORDER_ID_MAX_LEN](_ => NUL);
      execId := new char[EXEC_ID_MAX_LEN](_ => NUL);
      symbol := new char[SYMBOL_MAX_LEN](_ => NUL);
      new;
      assert orderId[0] == NUL && execId[0] == NUL && symbol[0] == NUL;
    }

    method SetOrderId(s: string)
      requires Valid()
      modifies orderId
      ensures Valid() && orderId[..] == Stored(s, ORDER_ID_MAX_LEN)
    {
      SetBuffer(orderId, s);
      SetThenGet(s, ORDER_ID_MAX_LEN);
    }

    method SetExecId(s: string)
      requires Valid()
      modifies execId
      ensures Valid() && execId[..] == Stored(s, EXEC_ID_MAX_LEN)
    {
      SetBuffer(execId, s);
      SetThenGet(s, EXEC_ID_MAX_LEN);
    }

    method SetSymbol(s: string)
      requires Valid()
      modifies symbol
      ensures Valid() && symbol[..] == Stored(s, SYMBOL_MAX_LEN)
    {
      SetBuffer(symbol, s);
      SetThenGet(s, SYMBOL_MAX_LEN);
    }

    method GetOrderId() returns (s: string)
      requires Valid()
      ensures s == CString(orderId[..])
    {
      s := GetBuffer(orderId);
    }

    method GetExecId() returns (s: string)
      requires Valid()
      ensures s == CString(execId[..])
    {
      s := GetBuffer(execId);
    }

    method GetSymbol() returns (s: string)
      requires Valid()
      ensures s == CString(symbol[..])
    {
      s := GetBuffer(symbol);
    }
  }
}
