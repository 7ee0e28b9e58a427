/**
 * The greedy allocation routine `execute_investment`: a newly created target
 * (a donation or a project) is matched, in list order, against open entities
 * of the opposite kind.
 *
 * The amounts it moves are given first as a pure plan, `Transfers`, whose
 * properties (bounds, conservation, first-come-first-served order, closing)
 * are proved as lemmas; the method `ExecuteInvestment` updates the entities
 * in place and is proved to move exactly the planned amounts.
 */
module Investment {
  import opened Wrappers
  import opened Ledger

  function Min(a: int, b: int): int
  {
    if a <= b then a else b
  }

  /** The sum of a sequence, peeled from the back as a left-to-right loop adds it up. */
  function Sum(s: seq<int>): int
  {
    if s == [] then 0 else Sum(s[..|s| - 1]) + s[|s| - 1]
  }

  /**
   * The amount moved at each step when a target with `room` left meets
   * sources whose rooms are `rooms`, in order: at every step the smaller of
   * what the target still lacks and what the source still has.
   */
  function Transfers(room: int, rooms: seq<int>): (t: seq<int>)
    ensures |t| == |rooms|
  {
    if rooms == [] then []
    else
      var done := Transfers(room, rooms[..|rooms| - 1]);
      done + [Min(room - Sum(done), rooms[|rooms| - 1])]
  }

  /**
   * Whether the target became full after one of the steps of `t`, that is,
   * whether the routine closed it at least once.
   */
  predicate Closes(room: int, t: seq<int>)
  {
    t != [] && (Closes(room, t[..|t| - 1]) || Sum(t) == room)
  }

  /** The rooms of the given entities, in order. */
  function Rooms(fs: seq<Funding>): (r: seq<int>)
    ensures |r| == |fs|
    ensures forall i :: 0 <= i < |fs| ==> r[i] == fs[i].Room()
  {
    if fs == [] then [] else [fs[0].Room()] + Rooms(fs[1..])
  }

  /** The amounts the routine moves between `target` and each of `sources`. */
  function Plan(target: Funding, sources: seq<Funding>): (t: seq<int>)
    ensures |t| == |sources|
  {
    Transfers(target.Room(), Rooms(sources))
  }

  /** The money-related columns of the given entities, in order. */
  function States(es: seq<Entity>): (r: seq<Funding>)
    reads es
    ensures |r| == |es|
    ensures forall i :: 0 <= i < |es| ==> r[i] == es[i].State()
  {
    if es == [] then [] else [es[0].State()] + States(es[1..])
  }

  /** The target as the routine starts from it: an unset or zero invested amount becomes 0. */
  function Normalised(f: Funding): Funding
  {
    if f.investedAmount.None? || f.investedAmount == Some(0) then f.(investedAmount := Some(0)) else f
  }

  /** The target after it has been credited each of `amounts` in turn. */
  function CreditEach(f: Funding, amounts: seq<int>, now: Timestamp): (g: Funding)
    requires f.investedAmount.Some?
    ensures g.investedAmount.Some?
  {
    if amounts == [] then f
    else Credit(CreditEach(f, amounts[..|amounts| - 1], now), amounts[|amounts| - 1], now)
  }

  predicate NonNegative(s: seq<int>)
  {
    forall i :: 0 <= i < |s| ==> 0 <= s[i]
  }

  lemma SumAppend(s: seq<int>, x: int)
    ensures Sum(s + [x]) == Sum(s) + x
  {
  }

  /** Planning for a prefix of the sources gives a prefix of the plan. */
  lemma {:induction false} TransfersPrefix(room: int, rooms: seq<int>, i: nat)
    requires i <= |rooms|
    ensures Transfers(room, rooms)[..i] == Transfers(room, rooms[..i])
  {
    if i == |rooms| {
      assert rooms[..i] == rooms;
    } else {
      var front := rooms[..|rooms| - 1];
      TransfersPrefix(room, front, i);
      assert front[..i] == rooms[..i];
    }
  }

  /** Step `i` moves the smaller of the target's remaining room and source `i`'s room. */
  lemma {:induction false} TransferAt(room: int, rooms: seq<int>, i: nat)
    requires i < |rooms|
    ensures var t := Transfers(room, rooms);
      t[i] == Min(room - Sum(t[..i]), rooms[i])
  {
    TransfersPrefix(room, rooms, i + 1);
    TransfersPrefix(room, rooms, i);
    assert rooms[..i + 1][..i] == rooms[..i];
  }

  /**
   * Bounds: with no negative rooms, every step moves between 0 and the
   * source's room, and the target never receives more than its room.
   */
  lemma {:induction false} TransfersWithinRooms(room: int, rooms: seq<int>)
    requires 0 <= room && NonNegative(rooms)
    ensures var t := Transfers(room, rooms);
      && (forall i :: 0 <= i < |t| ==> 0 <= t[i] <= rooms[i])
      && 0 <= Sum(t) <= room
  {
    if rooms != [] {
      var front := rooms[..|rooms| - 1];
      var done := Transfers(room, front);
      TransfersWithinRooms(room, front);
      SumAppend(done, Min(room - Sum(done), rooms[|rooms| - 1]));
    }
  }

  /**
   * Conservation in closed form: the target receives exactly the smaller of
   * its room and the total room of the sources.
   */
  lemma {:induction false} TransferredTotal(room: int, rooms: seq<int>)
    requires 0 <= room && NonNegative(rooms)
    ensures Sum(Transfers(room, rooms)) == Min(room, Sum(rooms))
  {
    if rooms != [] {
      var front := rooms[..|rooms| - 1];
      var done := Transfers(room, front);
      TransferredTotal(room, front);
      SumAppend(done, Min(room - Sum(done), rooms[|rooms| - 1]));
    }
  }

  /** After each step either that source or the target is full. */
  lemma StepFillsOneSide(room: int, rooms: seq<int>, i: nat)
    requires i < |rooms|
    ensures var t := Transfers(room, rooms);
      t[i] == rooms[i] || Sum(t[..i + 1]) == room
  {
    var t := Transfers(room, rooms);
    TransferAt(room, rooms, i);
    assert t[..i + 1] == t[..i] + [t[i]];
    SumAppend(t[..i], t[i]);
  }

  /** Once the target is full, every later source is given nothing. */
  lemma {:induction false} NothingMovesAfterTargetFull(room: int, rooms: seq<int>, i: nat, j: nat)
    requires NonNegative(rooms)
    requires i <= j < |rooms|
    requires Sum(Transfers(room, rooms)[..i]) == room
    ensures Transfers(room, rooms)[j] == 0
    decreases j - i
  {
    var t := Transfers(room, rooms);
    TransferAt(room, rooms, i);
    if i < j {
      assert t[..i + 1] == t[..i] + [t[i]];
      SumAppend(t[..i], t[i]);
      NothingMovesAfterTargetFull(room, rooms, i + 1, j);
    }
  }

  /** A target that is already full moves nothing at any step. */
  lemma FullTargetMovesNothing(room: int, rooms: seq<int>)
    requires room == 0 && NonNegative(rooms)
    ensures forall j :: 0 <= j < |rooms| ==> Transfers(room, rooms)[j] == 0
  {
    forall j | 0 <= j < |rooms|
      ensures Transfers(room, rooms)[j] == 0
    {
      assert Transfers(room, rooms)[..0] == [];
      NothingMovesAfterTargetFull(room, rooms, 0, j);
    }
  }

  /**
   * First come, first served: a source receives something only if every
   * source before it was filled completely.
   */
  lemma FirstComeFirstServed(room: int, rooms: seq<int>, i: nat, j: nat)
    requires NonNegative(rooms)
    requires i < j < |rooms|
    ensures Transfers(room, rooms)[j] > 0 ==> Transfers(room, rooms)[i] == rooms[i]
  {
    if Transfers(room, rooms)[i] != rooms[i] {
      StepFillsOneSide(room, rooms, i);
      NothingMovesAfterTargetFull(room, rooms, i + 1, j);
    }
  }

  /**
   * Closing is monotone: with no negative rooms the target is closed during
   * a run exactly when there was at least one source and it ends full.
   */
  lemma {:induction false} ClosesOnlyWhenFilled(room: int, rooms: seq<int>)
    requires 0 <= room && NonNegative(rooms)
    ensures Closes(room, Transfers(room, rooms)) <==> rooms != [] && Sum(Transfers(room, rooms)) == room
  {
    if rooms != [] {
      var front := rooms[..|rooms| - 1];
      var done := Transfers(room, front);
      var x := Min(room - Sum(done), rooms[|rooms| - 1]);
      var t := done + [x];
      assert t[..|t| - 1] == done;
      SumAppend(done, x);
      ClosesOnlyWhenFilled(room, front);
      TransfersWithinRooms(room, front);
    }
  }

  /**
   * The list `execute_investment` has built after its first `n` steps: the
   * target and then the source, once for each of the first `n` sources.
   */
  function Pairs(target: Entity, sources: seq<Entity>, n: nat): seq<Entity>
    requires n <= |sources|
  {
    if n == 0 then [] else Pairs(target, sources, n - 1) + [target] + [sources[n - 1]]
  }

  /**
   * The returned list has two entries per source, the target at every even
   * position and the sources, in order, at the odd ones.
   */
  lemma {:induction false} PairsShape(target: Entity, sources: seq<Entity>, n: nat)
    requires n <= |sources|
    ensures |Pairs(target, sources, n)| == 2 * n
    ensures forall k :: 0 <= k < 2 * n ==>
      Pairs(target, sources, n)[k] == if k % 2 == 0 then target else sources[k / 2]
  {
    if n > 0 {
      PairsShape(target, sources, n - 1);
    }
  }

  /**
   * Crediting the target step by step adds up the amounts, keeps its full
   * amount, and closes it at `now` exactly when some step made it full.
   */
  lemma {:induction false} CreditEachTotals(f: Funding, amounts: seq<int>, now: Timestamp)
    requires f.investedAmount.Some?
    ensures var g := CreditEach(f, amounts, now);
      && g.fullAmount == f.fullAmount
      && g.investedAmount == Some(f.Invested() + Sum(amounts))
      && g.fullyInvested == (f.fullyInvested || Closes(f.Room(), amounts))
      && g.closeDate == if Closes(f.Room(), amounts) then Some(now) else f.closeDate
  {
    if amounts != [] {
      var front := amounts[..|amounts| - 1];
      CreditEachTotals(f, front, now);
    }
  }

  /** Crediting one more amount extends the step-by-step crediting by one step. */
  lemma CreditEachGrow(start: Funding, plan: seq<int>, i: nat, now: Timestamp)
    requires start.investedAmount.Some? && i < |plan|
    ensures CreditEach(start, plan[..i + 1], now) == Credit(CreditEach(start, plan[..i], now), plan[i], now)
  {
    assert plan[..i + 1][..i] == plan[..i];
  }

  /**
   * The amount of step `i` is what the loop computes from the target as the
   * earlier steps left it (`current`) and the room of source `i`.
   */
  lemma NextTransfer(start: Funding, rooms: seq<int>, plan: seq<int>, i: nat, now: Timestamp, current: Funding)
    requires start.investedAmount.Some? && i < |rooms|
    requires plan == Transfers(start.Room(), rooms)
    requires current == CreditEach(start, plan[..i], now)
    ensures current.investedAmount.Some?
    ensures plan[i] == Min(current.fullAmount - current.investedAmount.value, rooms[i])
  {
    CreditEachTotals(start, plan[..i], now);
    TransferAt(start.Room(), rooms, i);
    assert current.fullAmount == start.fullAmount;
    assert current.investedAmount.value == start.Invested() + Sum(plan[..i]);
  }

  /**
   * The ledger invariant survives a whole run: if the target and every
   * source satisfy it before, then the target and every source satisfy it
   * after, no invested amount decreases, and the target gains exactly what
   * the sources give.
   */
  lemma AllocationKeepsLedgerInvariant(target: Funding, sources: seq<Funding>, now: Timestamp)
    requires target.Valid()
    requires forall i :: 0 <= i < |sources| ==> sources[i].Valid() && sources[i].investedAmount.Some?
    ensures var plan := Plan(target, sources);
      var after := CreditEach(Normalised(target), plan, now);
      && after.Valid()
      && after.Invested() == target.Invested() + Sum(plan)
      && target.Invested() <= after.Invested()
      && forall i :: 0 <= i < |sources| ==>
           && Credit(sources[i], plan[i], now).Valid()
           && Credit(sources[i], plan[i], now).Invested() == sources[i].Invested() + plan[i]
           && sources[i].Invested() <= Credit(sources[i], plan[i], now).Invested()
  {
    var plan := Plan(target, sources);
    var rooms := Rooms(sources);
    TransfersWithinRooms(target.Room(), rooms);
    ClosesOnlyWhenFilled(target.Room(), rooms);
    CreditEachTotals(Normalised(target), plan, now);
    forall i | 0 <= i < |sources|
      ensures Credit(sources[i], plan[i], now).Valid()
      ensures Credit(sources[i], plan[i], now).Invested() == sources[i].Invested() + plan[i]
    {
      CreditKeepsValid(sources[i], plan[i], now);
    }
  }

  /** Recording that source `i` has been credited its amount. */
  lemma SettleNext(before: seq<Funding>, plan: seq<int>, after: seq<Funding>, i: nat, now: Timestamp)
    requires i < |before| == |plan| == |after|
    requires forall j :: 0 <= j < |before| ==> before[j].investedAmount.Some?
    requires forall j :: 0 <= j < i ==> after[j] == Credit(before[j], plan[j], now)
    requires forall j :: i <= j < |after| ==> after[j] == before[j]
    ensures var after' := after[i := Credit(before[i], plan[i], now)];
      && (forall j :: 0 <= j < i + 1 ==> after'[j] == Credit(before[j], plan[j], now))
      && (forall j :: i + 1 <= j < |after| ==> after'[j] == before[j])
  {
  }

  /**
   * Lines 15-16 of `execute_investment`: a target whose invested amount is
   * unset or 0 starts from 0.
   */
  method ResetUnsetInvested(target: Entity)
    modifies target`investedAmount
    ensures target.State() == Normalised(old(target.State()))
  {
    if target.investedAmount.None? || target.investedAmount.value == 0 {
      target.investedAmount := Some(0);
    }
  }

  /**
   * One pass of the outer loop, for source `i`: move the smaller of the
   * target's and the source's room into both, closing whichever became full.
   * The ghost parameters say where the run started (`start`, `before`), what
   * it moves (`plan`) and what the sources look like so far (`after`).
   */
  method InvestNext(target: Entity, sources: seq<Entity>, i: nat, now: Timestamp,
                    ghost start: Funding, ghost before: seq<Funding>, ghost plan: seq<int>,
                    ghost after: seq<Funding>)
    returns (ghost after': seq<Funding>)
    requires i < |sources| == |before| == |after|
    requires target !in sources
    requires forall j, k :: 0 <= j < k < |sources| ==> sources[j] != sources[k]
    requires |plan| == |sources|
    requires forall j :: 0 <= j < |sources| ==> before[j].investedAmount.Some?
    requires start.investedAmount.Some? && target.State() == CreditEach(start, plan[..i], now)
    requires plan[i] == Min(target.fullAmount - target.investedAmount.value, before[i].Room())
    requires forall j :: 0 <= j < |sources| ==> sources[j].State() == after[j]
    requires forall j :: 0 <= j < i ==> after[j] == Credit(before[j], plan[j], now)
    requires forall j :: i <= j < |sources| ==> after[j] == before[j]
    modifies target, sources[i]
    ensures target.State() == CreditEach(start, plan[..i + 1], now)
    ensures |after'| == |sources|
    ensures forall j :: 0 <= j < |sources| ==> sources[j].State() == after'[j]
    ensures forall j :: 0 <= j < i + 1 ==> after'[j] == Credit(before[j], plan[j], now)
    ensures forall j :: i + 1 <= j < |sources| ==> after'[j] == before[j]
  {
    var source := sources[i];
    var toInvest := Min(target.fullAmount - target.investedAmount.value,
                        source.fullAmount - source.investedAmount.value);
    assert toInvest == plan[i];
    target.Invest(toInvest, now);
    source.Invest(toInvest, now);
    after' := after[i := source.State()];
    SettleNext(before, plan, after, i, now);
    CreditEachGrow(start, plan, i, now);
  }

  /**
   * The outer loop of `execute_investment` (lines 17-25), from a target
   * whose invested amount is set: it moves exactly the amounts of `plan`
   * and lists the target and the source for every source.
   */
  method InvestInOrder(target: Entity, sources: seq<Entity>, now: Timestamp,
                       ghost before: seq<Funding>, ghost plan: seq<int>)
    returns (investedList: seq<Entity>)
    requires target !in sources
    requires forall i, j :: 0 <= i < j < |sources| ==> sources[i] != sources[j]
    requires |before| == |sources|
    requires forall j :: 0 <= j < |sources| ==> sources[j].State() == before[j] && before[j].investedAmount.Some?
    requires target.investedAmount.Some?
    requires plan == Transfers(target.State().Room(), Rooms(before))
    modifies target, sources
    ensures investedList == Pairs(target, sources, |sources|)
    ensures target.State() == CreditEach(old(target.State()), plan, now)
    ensures forall j :: 0 <= j < |sources| ==> sources[j].State() == Credit(before[j], plan[j], now)
  {
    ghost var start := target.State();
    investedList := [];
    ghost var after := before;
    var i := 0;
    while i < |sources|
      invariant 0 <= i <= |sources|
      invariant investedList == Pairs(target, sources, i)
      invariant target.State() == CreditEach(start, plan[..i], now)
      invariant |after| == |sources|
      invariant forall j :: 0 <= j < |sources| ==> sources[j].State() == after[j]
      invariant forall j :: 0 <= j < i ==> after[j] == Credit(before[j], plan[j], now)
      invariant forall j :: i <= j < |sources| ==> after[j] == before[j]
    {
      NextTransfer(start, Rooms(before), plan, i, now, target.State());
      after := InvestNext(target, sources, i, now, start, before, plan, after);
      investedList := investedList + [target];
      investedList := investedList + [sources[i]];
      i := i + 1;
    }
    assert plan[..i] == plan;
  }

  /**
   * `execute_investment`: for each source in order, move the smaller of the
   * target's and the source's room into both, close whichever of the two
   * became full, and append the target and then the source to the result.
   * There is no early exit: once the target is full every later source is
   * still visited with a zero amount and the target is closed again at `now`.
   * A target whose invested amount is unset or 0 starts from 0.
   */
  method ExecuteInvestment(target: Entity, sources: seq<Entity>, now: Timestamp)
    returns (investedList: seq<Entity>)
    requires target !in sources
    requires forall i, j :: 0 <= i < j < |sources| ==> sources[i] != sources[j]
    requires forall s :: s in sources ==> s.investedAmount.Some?
    modifies target, sources
    ensures investedList == Pairs(target, sources, |sources|)
    ensures target.State() ==
      CreditEach(Normalised(old(target.State())), old(Plan(target.State(), States(sources))), now)
    ensures forall i {:trigger sources[i]} :: 0 <= i < |sources| ==>
      sources[i].State() == Credit(old(sources[i].State()), old(Plan(target.State(), States(sources)))[i], now)
  {
    ghost var before := States(sources);
    ghost var plan := Plan(target.State(), before);
    ResetUnsetInvested(target);
    investedList := InvestInOrder(target, sources, now, before, plan);
  }
}
