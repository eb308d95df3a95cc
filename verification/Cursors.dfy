/** Reading the ledger out of a pagination cursor. */
module Cursors {
  import opened Wrappers
  import opened Decimals

  const TWO_32 := 0x1_0000_0000
  const TWO_64 := 0x1_0000_0000_0000_0000

  function BeforeDash(s: string): string {
    if s == [] || s[0] == '-' then [] else [s[0]] + BeforeDash(s[1..])
  }

  /** Go's ParseUint(s, 10, 64): digits only, and no more than 64 bits. */
  function ParseUint64(s: string): Option<uint64> {
    if s == [] || !AllDigits(s) || ValueOf(s) >= TWO_64 then None else Some(ValueOf(s))
  }

  function LedgerFromCursor(cursor: string): Option<uint32> {
    match ParseUint64(BeforeDash(cursor))
    case None => None
    case Some(toid) => Some(toid / TWO_32)
  }

  /** SEP-35: 32 bits of ledger sequence, 20 of transaction order, 12 of operation index. */
  function Toid(ledger: uint32, transaction: nat, operation: nat): nat
    requires transaction < 0x10_0000 && operation < 0x1000
  {
    ledger * TWO_32 + transaction * 0x1000 + operation
  }

  lemma {:induction false} BeforeDashStops(s: string, rest: string)
    requires '-' !in s
    requires rest == [] || rest[0] == '-'
    ensures BeforeDash(s + rest) == s
  {
    if s == [] {
      assert s + rest == rest;
    } else {
      assert (s + rest)[1..] == s[1..] + rest;
      BeforeDashStops(s[1..], rest);
      assert [s[0]] + s[1..] == s;
    }
  }

  lemma DigitsHaveNoDash(s: string)
    requires AllDigits(s)
    ensures '-' !in s
  {
  }

  lemma ToidHoldsLedger(ledger: uint32, transaction: nat, operation: nat)
    requires transaction < 0x10_0000 && operation < 0x1000
    ensures Toid(ledger, transaction, operation) < TWO_64
    ensures Toid(ledger, transaction, operation) / TWO_32 == ledger
  {
  }

  lemma TimesZero(n: nat, p: nat)
    requires n == 0
    ensures n * p == 0
  {
  }

  lemma PaddedDigitsDenote(n: nat, padding: nat)
    ensures var digits := Zeros(padding) + PrintNat(n);
            digits != [] && AllDigits(digits) && ValueOf(digits) == n
  {
    PrintNatRoundTrip(n);
    ZerosAreZero(padding);
    ValueOfConcat(Zeros(padding), PrintNat(n));
    TimesZero(ValueOf(Zeros(padding)), Pow10(|PrintNat(n)|));
  }

  /** What stands before the first dash is read if and only if it is a number below 2^64; its upper half is the ledger. */
  lemma CursorIsReadIff(before: string, suffix: string)
    requires '-' !in before && (suffix == [] || suffix[0] == '-')
    ensures LedgerFromCursor(before + suffix) ==
            if before != [] && AllDigits(before) && ValueOf(before) < 0x1_0000_0000_0000_0000
            then Some(ValueOf(before) / 0x1_0000_0000) else None
  {
    BeforeDashStops(before, suffix);
  }

  /** Every cursor that names a TOID, zero-padded or not and with or without an event suffix, yields its ledger. */
  lemma LedgerIsRecovered(ledger: uint32, transaction: nat, operation: nat, padding: nat, suffix: string)
    requires transaction < 0x10_0000 && operation < 0x1000
    requires suffix == [] || suffix[0] == '-'
    ensures LedgerFromCursor(Zeros(padding) + PrintNat(Toid(ledger, transaction, operation)) + suffix) == Some(ledger)
  {
    var toid := Toid(ledger, transaction, operation);
    ToidHoldsLedger(ledger, transaction, operation);
    PaddedDigitsDenote(toid, padding);
    DigitsHaveNoDash(Zeros(padding) + PrintNat(toid));
    CursorIsReadIff(Zeros(padding) + PrintNat(toid), suffix);
  }
}
