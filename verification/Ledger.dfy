/**
  The append-only ledger of a budget (packages/types/src/cost.ts): what each kind of entry moves,
  replaying a balance from its entries, and reconciling the two.
 */
module Ledger {
  import opened Grouping
  import opened Options

  datatype Balance = Balance(allowance: int, used: int, reserved: int)

  const ZERO := Balance(0, 0, 0)

  datatype Kind = TopUp | Adjustment | Reallocation | Reserve | ReleaseReserve | Settle | Refund | Expiry

  datatype Movement = Movement(kind: Kind, amount: int)

  /** LEDGER_EFFECT: which totals a kind moves, and in which direction. */
  function Effect(kind: Kind): Balance {
    match kind
    case TopUp => Balance(1, 0, 0)
    case Adjustment => Balance(1, 0, 0)
    case Reallocation => Balance(1, 0, 0)
    case Reserve => Balance(0, 0, 1)
    case ReleaseReserve => Balance(0, 0, -1)
    case Settle => Balance(0, 1, 0)
    case Refund => Balance(0, -1, 0)
    case Expiry => Balance(-1, 0, 0)
  }

  /** effect * amount, for an effect of -1, 0 or 1. */
  function Signed(effect: int, amount: int): int {
    if effect == 0 then 0 else if effect > 0 then amount else -amount
  }

  lemma {:induction false} SignedIsTheProduct(kind: Kind, amount: int)
    ensures var e := Effect(kind);
            && Signed(e.allowance, amount) == e.allowance * amount
            && Signed(e.used, amount) == e.used * amount
            && Signed(e.reserved, amount) == e.reserved * amount
  {
  }

  function Apply(b: Balance, m: Movement): Balance {
    var e := Effect(m.kind);
    Balance(b.allowance + Signed(e.allowance, m.amount), b.used + Signed(e.used, m.amount), b.reserved + Signed(e.reserved, m.amount))
  }

  /** Which total each kind of entry moves, and in which direction. */
  lemma {:induction false} KindsMove(b: Balance, amount: int)
    ensures forall kind :: kind == TopUp || kind == Adjustment || kind == Reallocation ==>
              Apply(b, Movement(kind, amount)) == b.(allowance := b.allowance + amount)
    ensures Apply(b, Movement(Expiry, amount)) == b.(allowance := b.allowance - amount)
    ensures Apply(b, Movement(Reserve, amount)) == b.(reserved := b.reserved + amount)
    ensures Apply(b, Movement(ReleaseReserve, amount)) == b.(reserved := b.reserved - amount)
    ensures Apply(b, Movement(Settle, amount)) == b.(used := b.used + amount)
    ensures Apply(b, Movement(Refund, amount)) == b.(used := b.used - amount)
  {
  }

  /** `entries.reduce(applyLedgerEntry, zero)` */
  function Replay(entries: seq<Movement>): Balance {
    if entries == [] then ZERO else Apply(Replay(entries[..|entries| - 1]), entries[|entries| - 1])
  }

  function Plus(a: Balance, b: Balance): Balance {
    Balance(a.allowance + b.allowance, a.used + b.used, a.reserved + b.reserved)
  }

  /** What an entry moves, whatever the balance it is applied to. */
  lemma {:induction false} ApplyAdds(b: Balance, m: Movement)
    ensures Apply(b, m) == Plus(b, Apply(ZERO, m))
  {
  }

  lemma {:induction false} ReplaySnoc(entries: seq<Movement>, m: Movement)
    ensures Replay(entries + [m]) == Plus(Replay(entries), Apply(ZERO, m))
  {
    assert (entries + [m])[..|entries|] == entries;
    ApplyAdds(Replay(entries), m);
  }

  /** What the entries move in all, for any account of what one entry moves. */
  function Total(entries: seq<Movement>, delta: Movement -> Balance): Balance {
    if entries == [] then ZERO else Plus(Total(entries[..|entries| - 1], delta), delta(entries[|entries| - 1]))
  }

  lemma {:induction false} TotalSnoc(entries: seq<Movement>, m: Movement, delta: Movement -> Balance)
    ensures Total(entries + [m], delta) == Plus(Total(entries, delta), delta(m))
  {
    assert (entries + [m])[..|entries|] == entries;
  }

  lemma {:induction false} TotalAdds(a: seq<Movement>, b: seq<Movement>, delta: Movement -> Balance)
    ensures Total(a + b, delta) == Plus(Total(a, delta), Total(b, delta))
  {
    if b == [] {
      assert a + b == a;
    } else {
      var front, last := b[..|b| - 1], b[|b| - 1];
      TotalAdds(a, front, delta);
      TotalSnoc(a + front, last, delta);
      TotalSnoc(front, last, delta);
      assert b == front + [last];
      assert a + b == (a + front) + [last];
    }
  }

  lemma {:induction false} ReplayIsTotal(entries: seq<Movement>)
    ensures Replay(entries) == Total(entries, (m: Movement) => Apply(ZERO, m))
  {
    if entries != [] {
      ReplayIsTotal(entries[..|entries| - 1]);
      ApplyAdds(Replay(entries[..|entries| - 1]), entries[|entries| - 1]);
    }
  }

  /** What happened first and what happened later add up. */
  lemma {:induction false} ReplayAdds(a: seq<Movement>, b: seq<Movement>)
    ensures Replay(a + b) == Plus(Replay(a), Replay(b))
  {
    ReplayIsTotal(a);
    ReplayIsTotal(b);
    ReplayIsTotal(a + b);
    TotalAdds(a, b, (m: Movement) => Apply(ZERO, m));
  }

  lemma {:induction false} PlusSwaps(a: Balance, b: Balance, c: Balance)
    ensures Plus(Plus(a, b), c) == Plus(Plus(a, c), b)
  {
  }

  lemma {:induction false} TakeOut(before: seq<Movement>, m: Movement, later: seq<Movement>)
    ensures Replay(before + [m] + later) == Plus(Replay(before + later), Apply(ZERO, m))
  {
    ReplayAdds(before, later);
    ReplaySnoc(before, m);
    ReplayAdds(before + [m], later);
    PlusSwaps(Replay(before), Apply(ZERO, m), Replay(later));
  }

  /** A ledger read in any order gives the same balance. */
  lemma {:induction false} ReplayIgnoresOrder(a: seq<Movement>, b: seq<Movement>)
    requires multiset(a) == multiset(b)
    ensures Replay(a) == Replay(b)
  {
    if a == [] {
      assert |multiset(b)| == 0;
    } else {
      var last, front := a[|a| - 1], a[..|a| - 1];
      assert a == front + [last];
      assert last in multiset(b);
      var i :| 0 <= i < |b| && b[i] == last;
      var before, later := b[..i], b[i + 1..];
      assert b == before + [last] + later;
      MatchingEnds(front, last, before, later);
      ReplayIgnoresOrder(front, before + later);
      TakeOut(before, last, later);
      ReplaySnoc(front, last);
    }
  }

  // ----- reconciliation -----

  datatype Field = AllowanceMinor | UsedMinor | ReservedMinor

  datatype Finding = Finding(field: Field, stored: int, replayed: int, drift: int)

  function Read(b: Balance, f: Field): int {
    match f
    case AllowanceMinor => b.allowance
    case UsedMinor => b.used
    case ReservedMinor => b.reserved
  }

  const FIELDS := [AllowanceMinor, UsedMinor, ReservedMinor]

  /** Each field that disagrees is reported once, in the order of the table, with its exact drift; no other is. */
  method ReconcileBalance(stored: Balance, entries: seq<Movement>) returns (findings: seq<Finding>)
    ensures forall i :: 0 <= i < |findings| ==>
              var f := findings[i];
              f == Finding(f.field, Read(stored, f.field), Read(Replay(entries), f.field),
                           Read(stored, f.field) - Read(Replay(entries), f.field))
    ensures forall i, j :: 0 <= i < j < |findings| ==> findings[i].field != findings[j].field
    ensures forall f: Field :: (exists i :: 0 <= i < |findings| && findings[i].field == f) <==> Read(stored, f) != Read(Replay(entries), f)
    ensures findings == [] <==> stored == Replay(entries)
    ensures forall i :: 0 <= i < |findings| ==>
              var f := findings[i];
              && (f.field == AllowanceMinor ==> f.drift == stored.allowance - Replay(entries).allowance)
              && (f.field == UsedMinor ==> f.drift == stored.used - Replay(entries).used)
              && (f.field == ReservedMinor ==> f.drift == stored.reserved - Replay(entries).reserved)
  {
    var replayed := Replay(entries);
    findings := [];
    for k := 0 to |FIELDS|
      invariant forall i :: 0 <= i < |findings| ==>
                  var f := findings[i];
                  f == Finding(f.field, Read(stored, f.field), Read(replayed, f.field), Read(stored, f.field) - Read(replayed, f.field))
      invariant forall i, j :: 0 <= i < j < |findings| ==> findings[i].field != findings[j].field
      invariant forall i :: 0 <= i < |findings| ==> findings[i].field in FIELDS[..k]
      invariant forall f :: f in FIELDS[..k] ==>
                  ((exists i :: 0 <= i < |findings| && findings[i].field == f) <==> Read(stored, f) != Read(replayed, f))
    {
      var field := FIELDS[k];
      ghost var before := findings;
      assert FIELDS[..k + 1] == FIELDS[..k] + [field];
      assert field !in FIELDS[..k];
      if Read(stored, field) != Read(replayed, field) {
        findings := findings + [Finding(field, Read(stored, field), Read(replayed, field), Read(stored, field) - Read(replayed, field))];
        assert findings[|before|].field == field;
      }
      assert forall i :: 0 <= i < |before| ==> findings[i] == before[i];
    }
    forall f: Field ensures f in FIELDS[..|FIELDS|] {
      match f {
        case AllowanceMinor => assert FIELDS[..|FIELDS|][0] == f;
        case UsedMinor => assert FIELDS[..|FIELDS|][1] == f;
        case ReservedMinor => assert FIELDS[..|FIELDS|][2] == f;
      }
    }
    SameFieldsSameBalance(stored, replayed);
    if findings == [] {
      forall f: Field ensures Read(stored, f) == Read(replayed, f) {
        assert f in FIELDS[..|FIELDS|];
      }
    } else {
      assert Read(stored, findings[0].field) != Read(replayed, findings[0].field) by {
        assert findings[0].field in FIELDS[..|FIELDS|];
      }
    }
  }

  lemma {:induction false} SameFieldsSameBalance(a: Balance, b: Balance)
    ensures (forall f: Field :: Read(a, f) == Read(b, f)) <==> a == b
  {
    if forall f: Field :: Read(a, f) == Read(b, f) {
      assert Read(a, AllowanceMinor) == Read(b, AllowanceMinor);
      assert Read(a, UsedMinor) == Read(b, UsedMinor);
      assert Read(a, ReservedMinor) == Read(b, ReservedMinor);
    }
  }

  // ----- ledger entries -----

  /** An entry also records the reservation it belongs to and the balance that resulted. */
  datatype Entry = Entry(move: Movement, reservation: Option<nat>, after: Balance)

  function Movements(entries: seq<Entry>): (r: seq<Movement>)
    ensures |r| == |entries|
  {
    if entries == [] then [] else Movements(entries[..|entries| - 1]) + [entries[|entries| - 1].move]
  }

  /** Every entry recorded what had been used and reserved when it was written. */
  ghost predicate RecordsUse(entries: seq<Entry>) {
    entries == [] ||
    var balance, e := Replay(Movements(entries)), entries[|entries| - 1];
    RecordsUse(entries[..|entries| - 1]) && e.after.used == balance.used && e.after.reserved == balance.reserved
  }

  lemma {:induction false} AppendEntry(entries: seq<Entry>, e: Entry)
    ensures Movements(entries + [e]) == Movements(entries) + [e.move]
    ensures Replay(Movements(entries + [e])) == Apply(Replay(Movements(entries)), e.move)
    ensures var balance := Apply(Replay(Movements(entries)), e.move);
            RecordsUse(entries) && e.after.used == balance.used && e.after.reserved == balance.reserved ==> RecordsUse(entries + [e])
  {
    assert (entries + [e])[..|entries|] == entries;
    assert (Movements(entries) + [e.move])[..|entries|] == Movements(entries);
  }

  // ----- where the allowance and its ledger part -----

  /** The allowance that the latest entry recorded. */
  function AllowanceAfter(entries: seq<Entry>): int {
    if entries == [] then 0 else entries[|entries| - 1].after.allowance
  }

  /** By how much the allowance that an entry recorded differs from what the entry moves. */
  function Slip(before: int, e: Entry): int {
    e.after.allowance - Apply(Balance(before, 0, 0), e.move).allowance
  }

  function Slips(entries: seq<Entry>): int {
    if entries == [] then 0
    else var front := entries[..|entries| - 1]; Slips(front) + Slip(AllowanceAfter(front), entries[|entries| - 1])
  }

  lemma {:induction false} SlipsAppend(entries: seq<Entry>, e: Entry)
    ensures Slips(entries + [e]) == Slips(entries) + Slip(AllowanceAfter(entries), e)
  {
    assert (entries + [e])[..|entries|] == entries;
  }

  /** The allowance drifts from the replay of its ledger by the sum of the slips. */
  lemma {:induction false} SlipsAreTheDrift(entries: seq<Entry>)
    ensures AllowanceAfter(entries) == Replay(Movements(entries)).allowance + Slips(entries)
  {
    if entries != [] {
      var front, e := entries[..|entries| - 1], entries[|entries| - 1];
      SlipsAreTheDrift(front);
      AppendEntry(front, e);
      assert entries == front + [e];
      SlipsAppend(front, e);
    }
  }

  /** The amounts of one kind that a reservation has left in the ledger, in order. */
  function Amounts(entries: seq<Entry>, kind: Kind, reservation: nat): seq<int> {
    if entries == [] then []
    else
      var last, before := entries[|entries| - 1], Amounts(entries[..|entries| - 1], kind, reservation);
      if last.move.kind == kind && last.reservation == Some(reservation) then before + [last.move.amount] else before
  }

  lemma {:induction false} AmountsAppend(entries: seq<Entry>, e: Entry, kind: Kind, reservation: nat)
    ensures Amounts(entries + [e], kind, reservation)
         == Amounts(entries, kind, reservation)
            + if e.move.kind == kind && e.reservation == Some(reservation) then [e.move.amount] else []
  {
    assert (entries + [e])[..|entries|] == entries;
  }
}
