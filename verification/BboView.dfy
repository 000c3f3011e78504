/** The mobile app's list of latest values, one entry a symbol, with a selected entry. */
module BboView {
  import opened BboTypes
  import opened Sequences

  // ----- the list as a function of the messages since the last clear -----

  /** Symbols in the order of their first message. */
  function Arrivals(log: seq<Bbo>): seq<string> {
    if log == [] then []
    else
      var n := |log| - 1;
      var before := Arrivals(log[..n]);
      if log[n].symbol in before then before else before + [log[n].symbol]
  }

  function Latest(log: seq<Bbo>, symbol: string): Option<Bbo> {
    if log == [] then None
    else if log[|log| - 1].symbol == symbol then Some(log[|log| - 1])
    else Latest(log[..|log| - 1], symbol)
  }

  predicate Refines(updates: seq<Bbo>, log: seq<Bbo>) {
    && |updates| == |Arrivals(log)|
    && forall i :: 0 <= i < |updates| ==>
         updates[i].symbol == Arrivals(log)[i] && Latest(log, updates[i].symbol) == Some(updates[i])
  }

  ghost predicate Distinct(xs: seq<string>) {
    forall i, j :: 0 <= i < j < |xs| ==> xs[i] != xs[j]
  }

  /** Position of the first message of `symbol`. */
  ghost predicate FirstAt(log: seq<Bbo>, symbol: string, k: nat) {
    k < |log| && log[k].symbol == symbol && forall j :: 0 <= j < k ==> log[j].symbol != symbol
  }

  lemma {:induction false} ArrivalsAreDistinct(log: seq<Bbo>)
    ensures Distinct(Arrivals(log))
    ensures forall s :: s in Arrivals(log) <==> exists k :: 0 <= k < |log| && log[k].symbol == s
  {
    if log != [] {
      var n := |log| - 1;
      ArrivalsAreDistinct(log[..n]);
      assert forall k :: 0 <= k < n ==> log[..n][k] == log[k];
      forall s ensures s in Arrivals(log) <==> exists k :: 0 <= k < |log| && log[k].symbol == s {
        if s in Arrivals(log[..n]) {
          var k :| 0 <= k < n && log[..n][k].symbol == s;
          assert log[k].symbol == s;
        }
      }
    }
  }

  /** `Arrivals` is in first-arrival order: earlier entries had their first message earlier. */
  lemma {:induction false} ArrivalsInOrder(log: seq<Bbo>, i: nat, j: nat, a: nat, b: nat)
    requires i < j < |Arrivals(log)|
    requires FirstAt(log, Arrivals(log)[i], a) && FirstAt(log, Arrivals(log)[j], b)
    ensures a < b
  {
    var n := |log| - 1;
    var before := Arrivals(log[..n]);
    ArrivalsAreDistinct(log[..n]);
    if j < |before| {
      var k :| 0 <= k < n && log[..n][k].symbol == before[j];
      var l :| 0 <= l < n && log[..n][l].symbol == before[i];
      assert log[k].symbol == before[j] && log[l].symbol == before[i];
      assert a <= l < n && b <= k < n;
      ArrivalsInOrder(log[..n], i, j, a, b);
    } else {
      assert before[i] in before;
      var l :| 0 <= l < n && log[..n][l].symbol == before[i];
      assert log[l].symbol == before[i] && a <= l;
      assert log[n].symbol !in before;
      assert forall k :: 0 <= k < n ==> log[..n][k] == log[k];
      assert b == n;
    }
  }

  /** `Latest` is the last message of a symbol. */
  lemma {:induction false} LatestIsLast(log: seq<Bbo>, symbol: string)
    ensures Latest(log, symbol).None? <==> forall k :: 0 <= k < |log| ==> log[k].symbol != symbol
    ensures Latest(log, symbol).Some? ==> exists k: nat :: LastAt(log, symbol, k) && log[k] == Latest(log, symbol).value
  {
    if log != [] {
      var n := |log| - 1;
      if log[n].symbol == symbol {
        assert LastAt(log, symbol, n) && log[n] == Latest(log, symbol).value;
      } else {
        var before := log[..n];
        LatestIsLast(before, symbol);
        assert forall k :: 0 <= k < n ==> before[k] == log[k];
        if Latest(before, symbol).Some? {
          var k: nat :| LastAt(before, symbol, k) && before[k] == Latest(before, symbol).value;
          LastStays(log, symbol, k);
        }
      }
    }
  }

  /** Position of the last message of `symbol`. */
  ghost predicate LastAt(log: seq<Bbo>, symbol: string, k: nat) {
    k < |log| && log[k].symbol == symbol && forall j :: k < j < |log| ==> log[j].symbol != symbol
  }

  lemma LastStays(log: seq<Bbo>, symbol: string, k: nat)
    requires log != [] && log[|log| - 1].symbol != symbol && LastAt(log[..|log| - 1], symbol, k)
    ensures LastAt(log, symbol, k) && log[k] == log[..|log| - 1][k]
  {
    assert forall j :: 0 <= j < |log| - 1 ==> log[..|log| - 1][j] == log[j];
  }

  lemma SymbolsAreDistinct(updates: seq<Bbo>, log: seq<Bbo>)
    requires Refines(updates, log)
    ensures forall i, j :: 0 <= i < j < |updates| ==> updates[i].symbol != updates[j].symbol
  {
    ArrivalsAreDistinct(log);
  }

  lemma ReplaceRefines(updates: seq<Bbo>, log: seq<Bbo>, bbo: Bbo, i: nat)
    requires Refines(updates, log) && i < |updates| && updates[i].symbol == bbo.symbol
    ensures Refines(updates[i := bbo], log + [bbo])
  {
    var log' := log + [bbo];
    assert log'[..|log|] == log;
    SymbolsAreDistinct(updates, log);
    assert bbo.symbol == Arrivals(log)[i] && bbo.symbol in Arrivals(log);
  }

  lemma AddRefines(updates: seq<Bbo>, log: seq<Bbo>, bbo: Bbo)
    requires Refines(updates, log)
    requires forall i :: 0 <= i < |updates| ==> updates[i].symbol != bbo.symbol
    ensures Refines(updates + [bbo], log + [bbo])
  {
    var log' := log + [bbo];
    assert log'[..|log|] == log;
    assert bbo.symbol !in Arrivals(log);
  }

  /** Replacing the entry of one symbol keeps the entries of all others. */
  lemma StillListed(updates: seq<Bbo>, i: nat, bbo: Bbo)
    requires i < |updates| && updates[i].symbol == bbo.symbol
    ensures bbo in updates[i := bbo]
    ensures forall b :: b in updates && b.symbol != bbo.symbol ==> b in updates[i := bbo]
  {
    assert updates[i := bbo][i] == bbo;
    forall b | b in updates && b.symbol != bbo.symbol ensures b in updates[i := bbo] {
      var k :| 0 <= k < |updates| && updates[k] == b;
      assert updates[i := bbo][k] == b;
    }
  }

  // ----- the view model -----

  /** C# int, unchecked. */
  function ToInt32(n: int): int {
    (n + 0x8000_0000) % 0x1_0000_0000 - 0x8000_0000
  }

  /** Below 2^31 messages the count is the number of messages, and one more makes it negative. */
  lemma CountIsExact(n: nat)
    ensures n < 0x8000_0000 ==> ToInt32(n) == n
    ensures n == 0x8000_0000 ==> ToInt32(n) == -0x8000_0000
    ensures n < 0x1_0000_0000 ==> (ToInt32(n) == n <==> n < 0x8000_0000)
  {
  }

  class BboViewModel {
    var bboUpdates: seq<Bbo>
    var selectedSymbol: Option<Bbo>
    var messageCount: int
    ghost var log: seq<Bbo>  // the messages since the last clear

    /** The list refines the map from symbols to their latest message, in first-arrival order; the
        count is the number of messages, as an int; and the selection is null exactly when the list is
        empty, and otherwise an entry of the list. */
    ghost predicate Valid()
      reads this
    {
      && Refines(bboUpdates, log)
      && messageCount == ToInt32(|log|)
      && (selectedSymbol.None? <==> bboUpdates == [])
      && (selectedSymbol.Some? ==> selectedSymbol.value in bboUpdates)
    }

    constructor ()
      ensures Valid() && log == []
    {
      bboUpdates, selectedSymbol, messageCount, log := [], None, 0, [];
    }

    method ClearData()
      requires Valid()
      modifies this
      ensures Valid() && log == []
    {
      bboUpdates, messageCount, selectedSymbol := [], 0, None;
      log := [];
    }

    /** FirstOrDefault and IndexOf: the entry with the message's symbol. */
    method IndexOfSymbol(symbol: string) returns (index: Option<nat>)
      ensures index.Some? ==> index.value < |bboUpdates| && bboUpdates[index.value].symbol == symbol
      ensures index.None? ==> forall i :: 0 <= i < |bboUpdates| ==> bboUpdates[i].symbol != symbol
    {
      for i := 0 to |bboUpdates|
        invariant forall j :: 0 <= j < i ==> bboUpdates[j].symbol != symbol
      {
        if bboUpdates[i].symbol == symbol {
          return Some(i);
        }
      }
      return None;
    }

    method OnBboReceived(bbo: Bbo)
      requires Valid()
      modifies this
      ensures Valid() && log == old(log) + [bbo]
      ensures old(selectedSymbol).Some? ==>
                selectedSymbol.Some? && selectedSymbol.value.symbol == old(selectedSymbol).value.symbol
      ensures old(selectedSymbol).None? ==> selectedSymbol == Some(bbo)
    {
      hide Refines;
      var index := IndexOfSymbol(bbo.symbol);
      if index.Some? {
        ReplaceRefines(bboUpdates, log, bbo, index.value);
        StillListed(bboUpdates, index.value, bbo);
        bboUpdates := bboUpdates[index.value := bbo];
        if selectedSymbol.Some? && selectedSymbol.value.symbol == bbo.symbol {
          selectedSymbol := Some(bbo);
        }
      } else {
        AddRefines(bboUpdates, log, bbo);
        bboUpdates := bboUpdates + [bbo];
      }
      messageCount := ToInt32(messageCount + 1);
      log := log + [bbo];
      if selectedSymbol.None? && |bboUpdates| > 0 {
        selectedSymbol := Some(bboUpdates[0]);
      }
    }

    /** OnSymbolTapped on the button of a listed entry. */
    method Tap(i: nat)
      requires Valid() && i < |bboUpdates|
      modifies this`selectedSymbol
      ensures Valid() && selectedSymbol == Some(bboUpdates[i])
    {
      selectedSymbol := Some(bboUpdates[i]);
    }
  }
}
