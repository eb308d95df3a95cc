/** The text key under which an action waits in the executor's queue. */
module PendingKeys {
  import opened Wrappers
  import opened Events
  import opened Decimals
  import opened Detector

  function KindName(kind: ActionType): string {
    match kind
    case Liquidate => "liquidate"
    case TpSl => "tp_sl"
    case Limit => "limit"
  }

  /** Trades are numbered by trade index, limit orders by limit index. */
  function IndexOf(a: PendingAction): int {
    if a.kind.Limit? then a.limitIndex else a.key.index
  }

  function PendKey(a: PendingAction): string {
    KindName(a.kind) + "|" + (a.key.trader + "|" + Print(a.key.pair) + "|" + Print(IndexOf(a)))
  }

  /** What the text spells out. The queue is keyed by this; PendKeyIsFaithful shows it tells apart the same actions. */
  datatype WaitKey = WaitKey(kind: ActionType, trader: string, pair: int, index: int)

  function KeyFor(a: PendingAction): WaitKey {
    WaitKey(a.kind, a.key.trader, a.key.pair, IndexOf(a))
  }

  /** What an action acts on. */
  datatype Subject = OfTrade(slot: Slot) | OfLimit(slot: Slot)

  function SubjectOf(a: PendingAction): Subject {
    if a.kind.Limit? then OfLimit(Slot(a.key.trader, a.key.pair, a.limitIndex)) else OfTrade(a.key)
  }

  /** Two actions share a key exactly when they are of one type and act on the same trade or order. */
  lemma KeysNameSubjects(a: PendingAction, b: PendingAction)
    ensures KeyFor(a) == KeyFor(b) <==> a.kind == b.kind && SubjectOf(a) == SubjectOf(b)
  {
  }

  lemma {:induction false} SplitAtFirst(a: string, b: string, a': string, b': string)
    requires '|' !in a && '|' !in a'
    requires a + "|" + b == a' + "|" + b'
    ensures a == a' && b == b'
  {
    var s := a + "|" + b;
    if a == [] || a' == [] {
      assert s[|a|] == '|' && s[|a'|] == '|';
      assert a == [] ==> s[0] == '|';
      assert a' == [] ==> s[0] == '|';
      assert a == a';
    } else {
      assert s[0] == a[0] && s[0] == a'[0];
      assert s[1..] == a[1..] + "|" + b && s[1..] == a'[1..] + "|" + b';
      SplitAtFirst(a[1..], b, a'[1..], b');
    }
    assert b == s[|a| + 1..] && b' == (a' + "|" + b')[|a'| + 1..];
  }

  lemma {:induction false} SplitAtLast(a: string, b: string, a': string, b': string)
    requires '|' !in b && '|' !in b'
    requires a + "|" + b == a' + "|" + b'
    ensures a == a' && b == b'
    decreases |b|
  {
    var s := a + "|" + b;
    var n := |s| - 1;
    LastCharacter(a, b);
    LastCharacter(a', b');
    if b != [] && b' != [] {
      var c, c' := b[..|b| - 1], b'[..|b'| - 1];
      assert s[..n] == a + "|" + c && s[..n] == a' + "|" + c';
      SplitAtLast(a, c, a', c');
      assert b == c + [s[n]] && b' == c' + [s[n]];
    }
    assert a == s[..|a|] && a' == (a' + "|" + b')[..|a'|];
  }

  lemma LastCharacter(a: string, b: string)
    ensures var s := a + "|" + b;
            if b == [] then s[|s| - 1] == '|' else s[|s| - 1] == b[|b| - 1] && s[|s| - 1] in b
  {
  }

  lemma PrintedNumbersHaveNoBar(n: int)
    ensures '|' !in Print(n)
  {
    if '|' in Print(n) {
      PrintedCharacters(n, '|');
    }
  }

  /** Two actions share a text key exactly when type, trader, pair and index agree, whatever characters a trader's name contains. */
  lemma PendKeyIsFaithful(a: PendingAction, b: PendingAction)
    ensures PendKey(a) == PendKey(b) <==> KeyFor(a) == KeyFor(b)
  {
    if PendKey(a) == PendKey(b) {
      PendKeyIsInjective(a, b);
    }
  }

  lemma PendKeyIsInjective(a: PendingAction, b: PendingAction)
    requires PendKey(a) == PendKey(b)
    ensures KeyFor(a) == KeyFor(b)
  {
    SplitAtFirst(KindName(a.kind), a.key.trader + "|" + Print(a.key.pair) + "|" + Print(IndexOf(a)),
                 KindName(b.kind), b.key.trader + "|" + Print(b.key.pair) + "|" + Print(IndexOf(b)));
    PrintedNumbersHaveNoBar(a.key.pair);
    PrintedNumbersHaveNoBar(b.key.pair);
    PrintedNumbersHaveNoBar(IndexOf(a));
    PrintedNumbersHaveNoBar(IndexOf(b));
    SplitAtLast(a.key.trader + "|" + Print(a.key.pair), Print(IndexOf(a)),
                b.key.trader + "|" + Print(b.key.pair), Print(IndexOf(b)));
    SplitAtLast(a.key.trader, Print(a.key.pair), b.key.trader, Print(b.key.pair));
    PrintIsInjective(a.key.pair, b.key.pair);
    PrintIsInjective(IndexOf(a), IndexOf(b));
    KindNamesDiffer(a.kind, b.kind);
  }

  lemma KindNamesDiffer(a: ActionType, b: ActionType)
    requires KindName(a) == KindName(b)
    ensures a == b
  {
    assert |KindName(Liquidate)| == 9 && KindName(TpSl)[0] == 't' && KindName(Limit)[0] == 'l' && |KindName(Limit)| == 5;
  }
}
