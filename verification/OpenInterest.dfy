/** Open interest is kept by adding and subtracting with a floor at zero; here is what that computes. */
module OpenInterest {
  import opened Wrappers
  import opened Events
  import opened Projection

  predicate Moves(e: Event, pair: int) {
    MovesOi(e) && e.pairIndex.value == pair
  }

  /** The event names this side of this pair, and an amount to add or to take away. */
  predicate Adds(e: Event, pair: int, isLong: bool) {
    && e.source == Registry && e.topic.OiAdd?
    && e.pairIndex == Some(pair) && e.oiIsLong == Some(isLong) && e.amount.Some?
  }

  predicate Subtracts(e: Event, pair: int, isLong: bool) {
    && e.source == Registry && e.topic.OiSub?
    && e.pairIndex == Some(pair) && e.oiIsLong == Some(isLong) && e.amount.Some?
  }

  /** The signed changes of one side of one pair, in log order: the amounts of the events that name it. */
  function Deltas(log: seq<Event>, pair: int, isLong: bool): seq<int> {
    if log == [] then []
    else
      var e := log[|log| - 1];
      Deltas(log[..|log| - 1], pair, isLong) +
      if Adds(e, pair, isLong) then [e.amount.value] else if Subtracts(e, pair, isLong) then [-e.amount.value] else []
  }

  /** No event names this side of this pair with a negative amount. */
  ghost predicate NoNegativeAmount(log: seq<Event>, pair: int, isLong: bool) {
    forall e <- log | Adds(e, pair, isLong) || Subtracts(e, pair, isLong) :: e.amount.value >= 0
  }

  /** What the table says; a pair without a row has no open interest. */
  function Side(oi: map<int, OiRow>, pair: int, isLong: bool): int {
    if pair !in oi then 0 else if isLong then oi[pair].long else oi[pair].short
  }

  function Sum(d: seq<int>): int {
    if d == [] then 0 else d[0] + Sum(d[1..])
  }

  /** The largest sum of a suffix, the empty one included. */
  function MaxSuffix(d: seq<int>): int {
    if d == [] then 0
    else if Sum(d) > MaxSuffix(d[1..]) then Sum(d)
    else MaxSuffix(d[1..])
  }

  /** MaxSuffix is what its name says: no suffix exceeds it, and one attains it. */
  lemma {:induction false} MaxSuffixIsMaximal(d: seq<int>)
    ensures forall k | 0 <= k <= |d| :: Sum(d[k..]) <= MaxSuffix(d)
    ensures exists k | 0 <= k <= |d| :: Sum(d[k..]) == MaxSuffix(d)
  {
    if d == [] {
      assert d[0..] == [];
    } else {
      MaxSuffixIsMaximal(d[1..]);
      forall k | 0 <= k <= |d|
        ensures Sum(d[k..]) <= MaxSuffix(d)
      {
        if k > 0 {
          assert d[k..] == d[1..][k - 1..];
        } else {
          assert d[0..] == d;
        }
      }
      if Sum(d) > MaxSuffix(d[1..]) {
        assert d[0..] == d;
      } else {
        var k :| 0 <= k <= |d[1..]| && Sum(d[1..][k..]) == MaxSuffix(d[1..]);
        assert d[k + 1..] == d[1..][k..];
      }
    }
  }

  lemma {:induction false} SumConcat(a: seq<int>, b: seq<int>)
    ensures Sum(a + b) == Sum(a) + Sum(b)
  {
    if a == [] {
      assert a + b == b;
    } else {
      assert (a + b)[1..] == a[1..] + b;
      SumConcat(a[1..], b);
    }
  }

  /** One more change acts on the maximal suffix as the floored update acts on the row. */
  lemma {:induction false} MaxSuffixStep(d: seq<int>, x: int)
    ensures MaxSuffix(d + [x]) == Greatest0(MaxSuffix(d) + x)
  {
    if d == [] {
      assert d + [x] == [x];
      assert Sum([x]) == x;
    } else {
      assert (d + [x])[1..] == d[1..] + [x];
      SumConcat(d, [x]);
      assert Sum([x]) == x;
      MaxSuffixStep(d[1..], x);
    }
  }

  lemma {:induction false} SumAppend(d: seq<int>, x: int)
    ensures Sum(d + [x]) == Sum(d) + x
  {
    SumConcat(d, [x]);
    assert Sum([x]) == x + Sum([x][1..]);
  }

  lemma {:induction false} DeltasStep(front: seq<Event>, e: Event, pair: int, isLong: bool)
    ensures var d, d' := Deltas(front, pair, isLong), Deltas(front + [e], pair, isLong);
            if Adds(e, pair, isLong) then MaxSuffix(d') == Greatest0(MaxSuffix(d) + e.amount.value) && Sum(d') == Sum(d) + e.amount.value
            else if Subtracts(e, pair, isLong) then MaxSuffix(d') == Greatest0(MaxSuffix(d) - e.amount.value) && Sum(d') == Sum(d) - e.amount.value
            else d' == d
  {
    assert (front + [e])[..|front|] == front;
    if Adds(e, pair, isLong) {
      MaxSuffixStep(Deltas(front, pair, isLong), e.amount.value);
      SumAppend(Deltas(front, pair, isLong), e.amount.value);
    } else if Subtracts(e, pair, isLong) {
      MaxSuffixStep(Deltas(front, pair, isLong), -e.amount.value);
      SumAppend(Deltas(front, pair, isLong), -e.amount.value);
    }
  }

  /** One event adds its amount to the side it names or takes it away, down to zero, and leaves the other where it was. */
  lemma SideStep(oi: map<int, OiRow>, e: Event, pair: int, isLong: bool)
    requires Side(oi, pair, isLong) >= 0
    requires Adds(e, pair, isLong) || Subtracts(e, pair, isLong) ==> pair in oi || e.amount.value >= 0
    ensures var before, after := Side(oi, pair, isLong), Side(ApplyOi(oi, e), pair, isLong);
            && (Adds(e, pair, isLong) ==> after == Greatest0(before + e.amount.value))
            && (Subtracts(e, pair, isLong) ==> after == Greatest0(before - e.amount.value))
            && (!Adds(e, pair, isLong) && !Subtracts(e, pair, isLong) ==> after == before)
  {
  }

  /** An event that names the other side, or another pair, changes nothing here. */
  lemma OtherSideStays(oi: map<int, OiRow>, e: Event, pair: int, isLong: bool)
    requires Side(oi, pair, isLong) >= 0
    requires e.pairIndex != Some(pair) || e.oiIsLong != Some(isLong)
    ensures Side(ApplyOi(oi, e), pair, isLong) == Side(oi, pair, isLong)
  {
    SideStep(oi, e, pair, isLong);
  }

  lemma {:induction false} SuffixStep(oi: map<int, OiRow>, front: seq<Event>, e: Event, pair: int, isLong: bool)
    requires Side(oi, pair, isLong) == MaxSuffix(Deltas(front, pair, isLong)) >= 0
    requires Adds(e, pair, isLong) || Subtracts(e, pair, isLong) ==> e.amount.value >= 0
    ensures Side(ApplyOi(oi, e), pair, isLong) == MaxSuffix(Deltas(front + [e], pair, isLong)) >= 0
  {
    SideStep(oi, e, pair, isLong);
    DeltasStep(front, e, pair, isLong);
  }

  /**
   From an empty table, after any log whose amounts on a side are not negative, that side equals the
   largest suffix sum of its signed changes.
   */
  lemma {:induction false} OiIsMaximalSuffix(log: seq<Event>, pair: int, isLong: bool)
    requires NoNegativeAmount(log, pair, isLong)
    ensures Side(ApplyAll(EMPTY, log).oi, pair, isLong) == MaxSuffix(Deltas(log, pair, isLong)) >= 0
  {
    if log != [] {
      var front, e := log[..|log| - 1], log[|log| - 1];
      assert log == front + [e];
      ApplyAllConcat(EMPTY, front, [e]);
      assert ApplyAll(EMPTY, log) == ApplyEvent(ApplyAll(EMPTY, front), e);
      OiIsMaximalSuffix(front, pair, isLong);
      SuffixStep(ApplyAll(EMPTY, front).oi, front, e, pair, isLong);
    }
  }

  /** The floor goes unnoticed exactly when no prefix of the changes sums below zero. */
  lemma OiIsRunningSumIff(log: seq<Event>, pair: int, isLong: bool)
    requires NoNegativeAmount(log, pair, isLong)
    ensures var d := Deltas(log, pair, isLong);
            Side(ApplyAll(EMPTY, log).oi, pair, isLong) == Sum(d) <==> forall k | 0 <= k <= |d| :: Sum(d[..k]) >= 0
  {
    var d := Deltas(log, pair, isLong);
    OiIsMaximalSuffix(log, pair, isLong);
    MaxSuffixIsMaximal(d);
    forall k | 0 <= k <= |d|
      ensures Sum(d) == Sum(d[..k]) + Sum(d[k..])
    {
      assert d[..k] + d[k..] == d;
      SumConcat(d[..k], d[k..]);
    }
    assert d[0..] == d;
  }
}
