/** Per-trader lists, as the gateway keeps its open trades and limit orders, seen as one table. */
module TraderLists {
  import opened Wrappers
  import opened Events
  import opened SlotTables

  function Held<T>(cache: map<string, seq<T>>, trader: string): seq<T> {
    if trader in cache then cache[trader] else []
  }

  /** The first entry for a slot, or the length of the list. */
  function FirstFor<T>(list: seq<T>, slotOf: T -> Slot, slot: Slot): (i: nat)
    ensures i <= |list|
    ensures i < |list| ==> slotOf(list[i]) == slot
    ensures forall j | 0 <= j < i :: slotOf(list[j]) != slot
  {
    if list == [] || slotOf(list[0]) == slot then 0 else 1 + FirstFor(list[1..], slotOf, slot)
  }

  function Find<T>(cache: map<string, seq<T>>, slotOf: T -> Slot, slot: Slot): Option<T> {
    var list := Held(cache, slot.trader);
    var i := FirstFor(list, slotOf, slot);
    if i < |list| then Some(list[i]) else None
  }

  function AddTo<T>(cache: map<string, seq<T>>, trader: string, entry: T): map<string, seq<T>> {
    cache[trader := Held(cache, trader) + [entry]]
  }

  function RemoveFrom<T>(cache: map<string, seq<T>>, slotOf: T -> Slot, slot: Slot): map<string, seq<T>> {
    var list := Held(cache, slot.trader);
    var i := FirstFor(list, slotOf, slot);
    if i < |list| then cache[slot.trader := list[..i] + list[i + 1..]] else cache
  }

  function ReplaceIn<T>(cache: map<string, seq<T>>, slotOf: T -> Slot, slot: Slot, change: T -> T): map<string, seq<T>> {
    var list := Held(cache, slot.trader);
    var i := FirstFor(list, slotOf, slot);
    if i < |list| then cache[slot.trader := list[i := change(list[i])]] else cache
  }

  /** Every entry belongs to the trader, and no slot is listed twice. */
  ghost predicate TidyList<T>(list: seq<T>, slotOf: T -> Slot, trader: string) {
    && (forall i | 0 <= i < |list| :: slotOf(list[i]).trader == trader)
    && (forall i, j | 0 <= i < j < |list| :: slotOf(list[i]) != slotOf(list[j]))
  }

  ghost predicate Tidy<T>(cache: map<string, seq<T>>, slotOf: T -> Slot) {
    forall trader <- cache :: TidyList(cache[trader], slotOf, trader)
  }

  lemma FirstForIs<T>(list: seq<T>, slotOf: T -> Slot, slot: Slot, i: nat)
    requires i < |list| && slotOf(list[i]) == slot
    requires forall j | 0 <= j < i :: slotOf(list[j]) != slot
    ensures FirstFor(list, slotOf, slot) == i
  {
  }

  lemma NotListed<T>(list: seq<T>, slotOf: T -> Slot, slot: Slot)
    requires forall j | 0 <= j < |list| :: slotOf(list[j]) != slot
    ensures FirstFor(list, slotOf, slot) == |list|
  {
  }

  /** Appending an entry for a free slot adds exactly that slot. */
  lemma AddToFinds<T>(cache: map<string, seq<T>>, slotOf: T -> Slot, entry: T, slot: Slot)
    requires Tidy(cache, slotOf) && Find(cache, slotOf, slotOf(entry)) == None
    ensures Tidy(AddTo(cache, slotOf(entry).trader, entry), slotOf)
    ensures Find(AddTo(cache, slotOf(entry).trader, entry), slotOf, slot) ==
            if slot == slotOf(entry) then Some(entry) else Find(cache, slotOf, slot)
  {
    var list := Held(cache, slotOf(entry).trader);
    LongerList(list, slotOf, entry, slotOf(entry).trader, slot);
  }

  lemma LongerList<T>(list: seq<T>, slotOf: T -> Slot, entry: T, trader: string, slot: Slot)
    requires TidyList(list, slotOf, trader) && slotOf(entry).trader == trader
    requires FirstFor(list, slotOf, slotOf(entry)) == |list|
    ensures TidyList(list + [entry], slotOf, trader)
    ensures var (longer, k) := (list + [entry], FirstFor(list, slotOf, slot));
            if k < |list| then FirstFor(longer, slotOf, slot) == k
            else FirstFor(longer, slotOf, slot) == if slot == slotOf(entry) then |list| else |longer|
  {
    var longer := list + [entry];
    var k := FirstFor(list, slotOf, slot);
    if k < |list| {
      FirstForIs(longer, slotOf, slot, k);
    } else if slot == slotOf(entry) {
      FirstForIs(longer, slotOf, slot, |list|);
    } else {
      NotListed(longer, slotOf, slot);
    }
  }

  lemma ShorterList<T>(list: seq<T>, slotOf: T -> Slot, i: nat, trader: string, slot: Slot)
    requires i < |list| && TidyList(list, slotOf, trader)
    ensures var shorter := list[..i] + list[i + 1..];
            && TidyList(shorter, slotOf, trader)
            && var (k, k') := (FirstFor(list, slotOf, slot), FirstFor(shorter, slotOf, slot));
               if k == i || k == |list| then k' == |shorter| else k' < |shorter| && shorter[k'] == list[k]
  {
    var shorter := list[..i] + list[i + 1..];
    assert forall j | 0 <= j < |shorter| :: shorter[j] == list[if j < i then j else j + 1];
    var k := FirstFor(list, slotOf, slot);
    if k == i || k == |list| {
      NotListed(shorter, slotOf, slot);
    } else {
      FirstForIs(shorter, slotOf, slot, if k < i then k else k - 1);
    }
  }

  /** Closing the gap left by a removed entry removes exactly that slot. */
  lemma RemoveFromFinds<T>(cache: map<string, seq<T>>, slotOf: T -> Slot, gone: Slot, slot: Slot)
    requires Tidy(cache, slotOf)
    ensures Tidy(RemoveFrom(cache, slotOf, gone), slotOf)
    ensures Find(RemoveFrom(cache, slotOf, gone), slotOf, slot) == if slot == gone then None else Find(cache, slotOf, slot)
  {
    var list := Held(cache, gone.trader);
    var i := FirstFor(list, slotOf, gone);
    if i < |list| {
      ShorterList(list, slotOf, i, gone.trader, slot);
    }
  }

  lemma RemoveKeepsTidy<T>(cache: map<string, seq<T>>, slotOf: T -> Slot, gone: Slot)
    requires Tidy(cache, slotOf)
    ensures Tidy(RemoveFrom(cache, slotOf, gone), slotOf)
  {
    RemoveFromFinds(cache, slotOf, gone, gone);
  }

  /** Changing an entry in place changes exactly that slot. */
  lemma ReplaceInFinds<T>(cache: map<string, seq<T>>, slotOf: T -> Slot, changed: Slot, change: T -> T, slot: Slot)
    requires Tidy(cache, slotOf)
    requires forall x: T :: slotOf(change(x)) == slotOf(x)
    ensures Tidy(ReplaceIn(cache, slotOf, changed, change), slotOf)
    ensures Find(ReplaceIn(cache, slotOf, changed, change), slotOf, slot) ==
            if slot == changed && Find(cache, slotOf, slot).Some? then Some(change(Find(cache, slotOf, slot).value))
            else Find(cache, slotOf, slot)
  {
    var list := Held(cache, changed.trader);
    var i := FirstFor(list, slotOf, changed);
    if i < |list| {
      var list' := list[i := change(list[i])];
      assert forall j | 0 <= j < |list| :: slotOf(list'[j]) == slotOf(list[j]);
      if slot.trader == changed.trader {
        var k := FirstFor(list, slotOf, slot);
        if k == |list| {
          NotListed(list', slotOf, slot);
        } else {
          FirstForIs(list', slotOf, slot, k);
        }
      }
    }
  }

  // ----- Repeating an operation -----

  lemma RemovingTwice<T>(cache: map<string, seq<T>>, slotOf: T -> Slot, slot: Slot)
    requires Tidy(cache, slotOf)
    ensures var once := RemoveFrom(cache, slotOf, slot);
            Find(once, slotOf, slot).None? && RemoveFrom(once, slotOf, slot) == once
  {
    RemoveFromFinds(cache, slotOf, slot, slot);
  }

  lemma ReplacingTwice<T>(cache: map<string, seq<T>>, slotOf: T -> Slot, slot: Slot, change: T -> T)
    requires forall x: T :: slotOf(change(x)) == slotOf(x) && change(change(x)) == change(x)
    ensures var once := ReplaceIn(cache, slotOf, slot, change);
            && (Find(once, slotOf, slot).Some? <==> Find(cache, slotOf, slot).Some?)
            && ReplaceIn(once, slotOf, slot, change) == once
  {
    var list := Held(cache, slot.trader);
    var i := FirstFor(list, slotOf, slot);
    if i < |list| {
      var list' := list[i := change(list[i])];
      assert forall j | 0 <= j < |list| :: slotOf(list'[j]) == slotOf(list[j]);
      FirstForIs(list', slotOf, slot, i);
      assert list'[i := change(list'[i])] == list';
      var once := cache[slot.trader := list'];
      assert once[slot.trader := list'] == once;
    }
  }
}
