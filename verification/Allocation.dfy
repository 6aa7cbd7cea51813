/** `allocate_counts`: how many episodes each split receives, in exact arithmetic. Splits are indexed in the order
    of `SPLIT_NAMES`: train, validation, test. */
module Allocation {
  const TRAIN := 0
  const VALIDATION := 1
  const TEST := 2

  type Ratios = r: seq<real> | |r| == 3 witness [1.0, 0.0, 0.0]
  type Counts = c: seq<int> | |c| == 3 witness [0, 0, 0]

  datatype Outcome = Allocated(counts: Counts) | NegativeRatio | NoTrainRatio

  function RatioSum(ratios: Ratios): (sum: real) {
    ratios[0] + ratios[1] + ratios[2]
  }

  function Total(counts: Counts): (sum: int) {
    counts[0] + counts[1] + counts[2]
  }

  predicate Usable(ratios: Ratios) {
    (forall i :: 0 <= i < 3 ==> ratios[i] >= 0.0) && ratios[TRAIN] > 0.0
  }

  /** A split's exact share of `n` episodes. */
  function Quota(n: nat, ratios: Ratios, i: nat): (q: real)
    requires Usable(ratios) && i < 3
  {
    ratios[i] / RatioSum(ratios) * (n as real)
  }

  lemma Proportion(ratio: real, sum: real, n: real)
    requires sum > 0.0 && ratio >= 0.0 && n >= 0.0
    ensures ratio / sum * n >= 0.0 && (ratio == 0.0 ==> ratio / sum * n == 0.0)
    ensures ratio > 0.0 && n > 0.0 ==> ratio / sum * n > 0.0
  {
    var share := ratio / sum;
    assert share >= 0.0 && (ratio > 0.0 ==> share > 0.0);
  }

  lemma SharesAddUp(a: real, b: real, c: real, sum: real, n: real)
    requires sum > 0.0 && sum == a + b + c
    ensures a / sum * n + b / sum * n + c / sum * n == n
  {
    var x, y, z := a / sum, b / sum, c / sum;
    assert x + y + z == (a + b + c) / sum == 1.0;
    assert x * n + y * n + z * n == (x + y + z) * n == n;
  }

  lemma QuotasAddUp(n: nat, ratios: Ratios)
    requires Usable(ratios)
    ensures Quota(n, ratios, 0) + Quota(n, ratios, 1) + Quota(n, ratios, 2) == n as real
    ensures forall i :: 0 <= i < 3 ==>
              Quota(n, ratios, i) >= 0.0 && (ratios[i] == 0.0 ==> Quota(n, ratios, i) == 0.0) &&
              (ratios[i] > 0.0 && n > 0 ==> Quota(n, ratios, i) > 0.0)
  {
    var sum := RatioSum(ratios);
    SharesAddUp(ratios[0], ratios[1], ratios[2], sum, n as real);
    forall i | 0 <= i < 3
      ensures Quota(n, ratios, i) >= 0.0 && (ratios[i] == 0.0 ==> Quota(n, ratios, i) == 0.0) &&
              (ratios[i] > 0.0 && n > 0 ==> Quota(n, ratios, i) > 0.0)
    {
      Proportion(ratios[i], sum, n as real);
    }
  }

  // ----- largest remainder

  function Remainder(n: nat, ratios: Ratios, i: nat): (r: real)
    requires Usable(ratios) && i < 3
    ensures 0.0 <= r < 1.0
  {
    Quota(n, ratios, i) - (Quota(n, ratios, i).Floor as real)
  }

  /** Split `i` sorts before split `j`: larger remainder, then larger ratio, then earlier name. */
  predicate Before(n: nat, ratios: Ratios, i: nat, j: nat)
    requires Usable(ratios) && i < 3 && j < 3
  {
    var ri, rj := Remainder(n, ratios, i), Remainder(n, ratios, j);
    ri > rj || (ri == rj && (ratios[i] > ratios[j] || (ratios[i] == ratios[j] && i < j)))
  }

  type Order = o: seq<int> | |o| == 3 && (forall k :: 0 <= k < 3 ==> 0 <= o[k] < 3) &&
                             o[0] != o[1] && o[1] != o[2] && o[0] != o[2] witness [0, 1, 2]

  ghost predicate Sorted(n: nat, ratios: Ratios, order: Order)
    requires Usable(ratios)
  {
    Before(n, ratios, order[0], order[1]) && Before(n, ratios, order[1], order[2])
  }

  /** The three names in descending key order. */
  function Ranking(n: nat, ratios: Ratios): (order: Order)
    requires Usable(ratios)
    ensures Sorted(n, ratios, order)
  {
    if Before(n, ratios, 0, 1) then
      if Before(n, ratios, 1, 2) then [0, 1, 2] else if Before(n, ratios, 0, 2) then [0, 2, 1] else [2, 0, 1]
    else
      if Before(n, ratios, 0, 2) then [1, 0, 2] else if Before(n, ratios, 1, 2) then [1, 2, 0] else [2, 1, 0]
  }

  /** Every split gets its floor, and the `extra` seats left go one each to the splits that sort first. */
  ghost predicate LargestRemainder(n: nat, ratios: Ratios, counts: Counts)
    requires Usable(ratios)
  {
    && Total(counts) == n
    && (forall i :: 0 <= i < 3 ==>
          var floor := Quota(n, ratios, i).Floor; counts[i] == floor || counts[i] == floor + 1)
    && (forall i, j :: 0 <= i < 3 && 0 <= j < 3 ==>
          counts[i] == Quota(n, ratios, i).Floor && counts[j] == Quota(n, ratios, j).Floor + 1 ==>
            Before(n, ratios, j, i))
  }

  /** The seats left over are fewer than the splits with a positive remainder. */
  lemma SeatsLeft(n: nat, ratios: Ratios)
    requires Usable(ratios)
    ensures var left := n - Quota(n, ratios, 0).Floor - Quota(n, ratios, 1).Floor - Quota(n, ratios, 2).Floor;
            0 <= left <= 2 && left as real ==
              Remainder(n, ratios, 0) + Remainder(n, ratios, 1) + Remainder(n, ratios, 2)
  {
    QuotasAddUp(n, ratios);
  }

  lemma LargestRemainderBounds(n: nat, ratios: Ratios, counts: Counts)
    requires Usable(ratios) && LargestRemainder(n, ratios, counts)
    ensures forall i :: 0 <= i < 3 ==>
              counts[i] >= 0 && Quota(n, ratios, i) - 1.0 < counts[i] as real < Quota(n, ratios, i) + 1.0 &&
              (ratios[i] == 0.0 ==> counts[i] == 0)
  {
    QuotasAddUp(n, ratios);
    SeatsLeft(n, ratios);
  }

  /** The share of a split is to the number of episodes as its ratio is to the sum. */
  lemma QuotaProportional(n: nat, ratios: Ratios, i: nat)
    requires Usable(ratios) && i < 3
    ensures Quota(n, ratios, i) * (ratios[0] + ratios[1] + ratios[2]) == ratios[i] * (n as real)
  {
    var sum := RatioSum(ratios);
    var share := ratios[i] / sum;
    assert share * sum == ratios[i];
    assert share * (n as real) * sum == share * sum * (n as real);
  }

  /** Who gets a seat more: never a split with the smaller fractional part, nor on a tie the one with the smaller
      ratio, nor on another tie the one named later. */
  lemma SeatRule(n: nat, ratios: Ratios, counts: Counts, winner: nat, loser: nat)
    requires Usable(ratios) && LargestRemainder(n, ratios, counts) && winner < 3 && loser < 3
    requires counts[winner] as real > Quota(n, ratios, winner) && counts[loser] == Quota(n, ratios, loser).Floor
    ensures var w := Quota(n, ratios, winner) - (Quota(n, ratios, winner).Floor as real);
            var l := Quota(n, ratios, loser) - (Quota(n, ratios, loser).Floor as real);
            w > l || (w == l && ratios[winner] > ratios[loser]) ||
            (w == l && ratios[winner] == ratios[loser] && winner < loser)
  {
    assert counts[winner] == Quota(n, ratios, winner).Floor + 1;
  }

  /** Two such allocations cannot trade a seat. */
  lemma NoTrade(n: nat, ratios: Ratios, c: Counts, d: Counts, i: nat, j: nat)
    requires Usable(ratios) && LargestRemainder(n, ratios, c) && LargestRemainder(n, ratios, d) && i < 3 && j < 3
    ensures !(c[i] < d[i] && d[j] < c[j])
  {
  }

  /** There is only one such allocation. */
  lemma LargestRemainderUnique(n: nat, ratios: Ratios, c: Counts, d: Counts)
    requires Usable(ratios) && LargestRemainder(n, ratios, c) && LargestRemainder(n, ratios, d)
    ensures c == d
  {
    forall i: nat, j: nat | i < 3 && j < 3
      ensures !(c[i] < d[i] && d[j] < c[j])
    {
      NoTrade(n, ratios, c, d, i, j);
    }
    assert c[0] == d[0] && c[1] == d[1] && c[2] == d[2];
  }

  /** The first `seats` names of the order have been given one seat more. */
  ghost predicate Seated(floors: Counts, order: Order, seats: int, counts: Counts) {
    forall m :: 0 <= m < 3 ==> counts[order[m]] == floors[order[m]] + (if m < seats then 1 else 0)
  }

  method GiveSeats(floors: Counts, order: Order, seats: int) returns (counts: Counts)
    requires 0 <= seats <= 3
    ensures Seated(floors, order, seats, counts)
  {
    counts := floors;
    for k := 0 to seats
      invariant Seated(floors, order, k, counts)
    {
      var name := order[k];
      counts := counts[name := counts[name] + 1];
    }
  }

  lemma SeatedTotal(floors: Counts, order: Order, seats: int, counts: Counts)
    requires 0 <= seats <= 3 && Seated(floors, order, seats, counts)
    ensures Total(counts) == Total(floors) + seats
    ensures forall i :: 0 <= i < 3 ==> counts[i] == floors[i] || counts[i] == floors[i] + 1
  {
  }

  /** A split with an extra seat sorts before one without. */
  lemma SeatedBefore(n: nat, ratios: Ratios, order: Order, seats: int, floors: Counts, counts: Counts, i: nat, j: nat)
    requires Usable(ratios) && Sorted(n, ratios, order) && Seated(floors, order, seats, counts) && i < 3 && j < 3
    requires counts[i] == floors[i] && counts[j] == floors[j] + 1
    ensures Before(n, ratios, j, i)
  {
    var a: nat :| a < 3 && order[a] == i;
    var b: nat :| b < 3 && order[b] == j;
    assert b < seats <= a;
    assert Before(n, ratios, order[0], order[2]);
  }

  lemma SeatedIsLargestRemainder(n: nat, ratios: Ratios, order: Order, seats: int, floors: Counts, counts: Counts)
    requires Usable(ratios) && Sorted(n, ratios, order) && 0 <= seats <= 3 && Seated(floors, order, seats, counts)
    requires forall i :: 0 <= i < 3 ==> floors[i] == Quota(n, ratios, i).Floor
    requires seats == n - Total(floors)
    ensures LargestRemainder(n, ratios, counts)
  {
    SeatedTotal(floors, order, seats, counts);
    forall i: nat, j: nat | i < 3 && j < 3 && counts[i] == floors[i] && counts[j] == floors[j] + 1
      ensures Before(n, ratios, j, i)
    {
      SeatedBefore(n, ratios, order, seats, floors, counts, i, j);
    }
  }

  method RoundByRemainder(n: nat, ratios: Ratios) returns (counts: Counts)
    requires Usable(ratios)
    ensures LargestRemainder(n, ratios, counts)
  {
    var floors := [Quota(n, ratios, 0).Floor, Quota(n, ratios, 1).Floor, Quota(n, ratios, 2).Floor];
    SeatsLeft(n, ratios);
    var remaining := n - Total(floors);
    var order := Ranking(n, ratios);
    counts := GiveSeats(floors, order, remaining);
    SeatedIsLargestRemainder(n, ratios, order, remaining, floors, counts);
  }

  // ----- the repair loop

  function Shortfall(counts: Counts, minimums: Counts, i: nat): (d: int)
    requires i < 3
  {
    if counts[i] < minimums[i] then minimums[i] - counts[i] else 0
  }

  function Deficit(counts: Counts, minimums: Counts): (d: int) {
    Shortfall(counts, minimums, 0) + Shortfall(counts, minimums, 1) + Shortfall(counts, minimums, 2)
  }

  /** The first split with the largest surplus, then the largest count, among those above their minimum. */
  predicate IsDonor(counts: Counts, minimums: Counts, d: nat) {
    && d < 3 && counts[d] > minimums[d]
    && (forall i :: 0 <= i < 3 && counts[i] > minimums[i] ==>
          var si, sd := counts[i] - minimums[i], counts[d] - minimums[d];
          si < sd || (si == sd && (counts[i] < counts[d] || (counts[i] == counts[d] && d <= i))))
  }

  /** `a` is a better donor than `b`. */
  predicate Richer(counts: Counts, minimums: Counts, a: nat, b: nat)
    requires a < 3 && b < 3
  {
    var sa, sb := counts[a] - minimums[a], counts[b] - minimums[b];
    sa > sb || (sa == sb && counts[a] > counts[b])
  }

  /** `max` over the splits from `i` on that exceed their minimum; -1 when there are none. */
  function DonorFrom(counts: Counts, minimums: Counts, i: nat): (donor: int)
    requires i <= 3
    ensures donor == -1 || (i <= donor < 3 && counts[donor] > minimums[donor])
    ensures donor == -1 <==> forall k :: i <= k < 3 ==> counts[k] <= minimums[k]
    decreases 3 - i
  {
    if i == 3 then -1 else
    var rest := DonorFrom(counts, minimums, i + 1);
    if counts[i] > minimums[i] && (rest == -1 || !Richer(counts, minimums, rest, i)) then i else rest
  }

  lemma DonorIsRichest(counts: Counts, minimums: Counts)
    requires DonorFrom(counts, minimums, 0) >= 0
    ensures IsDonor(counts, minimums, DonorFrom(counts, minimums, 0))
  {
    var second := DonorFrom(counts, minimums, 1);
    var third := DonorFrom(counts, minimums, 2);
    assert DonorFrom(counts, minimums, 3) == -1;
  }

  function Transfer(counts: Counts, donor: nat, receiver: nat): (c: Counts)
    requires donor < 3 && receiver < 3
  {
    var taken := counts[donor := counts[donor] - 1];
    taken[receiver := taken[receiver] + 1]
  }

  /** The repair from receiver `receiver` on. */
  function Repaired(counts: Counts, minimums: Counts, receiver: nat): (c: Counts)
    requires receiver <= 3
    decreases 3 - receiver, if receiver < 3 then Shortfall(counts, minimums, receiver) else 0
  {
    if receiver == 3 then counts
    else if counts[receiver] >= minimums[receiver] then Repaired(counts, minimums, receiver + 1)
    else
      var donor := DonorFrom(counts, minimums, 0);
      if donor == -1 then Repaired(counts, minimums, receiver + 1)
      else Repaired(Transfer(counts, donor, receiver), minimums, receiver)
  }

  /** What transfers keep: the sum, and no split crosses its minimum from either side. */
  ghost predicate Kept(before: Counts, counts: Counts, minimums: Counts) {
    && Total(counts) == Total(before)
    && (forall i :: 0 <= i < 3 ==>
          if before[i] <= minimums[i] then before[i] <= counts[i] <= minimums[i]
          else minimums[i] <= counts[i] <= before[i])
    && (forall i :: 0 <= i < 3 && before[i] > minimums[i] ==>
          before[i] - counts[i] <= Deficit(before, minimums) - Deficit(counts, minimums))
  }

  lemma TransferKeeps(before: Counts, counts: Counts, minimums: Counts, donor: nat, receiver: nat)
    requires Kept(before, counts, minimums) && donor < 3 && receiver < 3
    requires counts[donor] > minimums[donor] && counts[receiver] < minimums[receiver]
    ensures Kept(before, Transfer(counts, donor, receiver), minimums)
  {
    var c := Transfer(counts, donor, receiver);
    assert forall i :: 0 <= i < 3 ==>
             c[i] == if i == receiver then counts[i] + 1 else if i == donor then counts[i] - 1 else counts[i];
    assert Deficit(c, minimums) == Deficit(counts, minimums) - 1;
  }

  lemma TransferProgresses(counts: Counts, minimums: Counts, donor: nat, receiver: nat)
    requires donor < 3 && receiver < 3
    requires counts[donor] > minimums[donor] && counts[receiver] < minimums[receiver]
    ensures var c := Transfer(counts, donor, receiver);
            && Shortfall(c, minimums, receiver) == Shortfall(counts, minimums, receiver) - 1
            && forall i :: 0 <= i < 3 && counts[i] >= minimums[i] ==> c[i] >= minimums[i]
  {
  }

  /** A split short of its minimum means another one has a surplus, so the no-donor break is never taken. */
  lemma DonorExists(before: Counts, counts: Counts, minimums: Counts, receiver: nat)
    requires Kept(before, counts, minimums) && Total(before) >= Total(minimums)
    requires receiver < 3 && counts[receiver] < minimums[receiver]
    ensures DonorFrom(counts, minimums, 0) >= 0
  {
  }

  /** The repair raises every split to its minimum and takes at most the deficit from any other. */
  lemma {:induction false} RepairedKeeps(before: Counts, counts: Counts, minimums: Counts, receiver: nat)
    requires receiver <= 3 && Kept(before, counts, minimums) && Total(before) >= Total(minimums)
    requires forall i :: 0 <= i < receiver ==> counts[i] >= minimums[i]
    ensures var c := Repaired(counts, minimums, receiver);
            Kept(before, c, minimums) && forall i :: 0 <= i < 3 ==> c[i] >= minimums[i]
    decreases 3 - receiver, if receiver < 3 then Shortfall(counts, minimums, receiver) else 0
  {
    if receiver == 3 {
    } else if counts[receiver] >= minimums[receiver] {
      RepairedKeeps(before, counts, minimums, receiver + 1);
    } else {
      DonorExists(before, counts, minimums, receiver);
      var donor := DonorFrom(counts, minimums, 0);
      TransferKeeps(before, counts, minimums, donor, receiver);
      TransferProgresses(counts, minimums, donor, receiver);
      var c := Transfer(counts, donor, receiver);
      assert Repaired(counts, minimums, receiver) == Repaired(c, minimums, receiver);
      RepairedKeeps(before, c, minimums, receiver);
    }
  }

  method Repair(before: Counts, minimums: Counts) returns (counts: Counts)
    ensures counts == Repaired(before, minimums, 0)
  {
    counts := before;
    for receiver := 0 to 3
      invariant Repaired(counts, minimums, receiver) == Repaired(before, minimums, 0)
    {
      var exhausted := false;
      while counts[receiver] < minimums[receiver] && !exhausted
        invariant exhausted ==> DonorFrom(counts, minimums, 0) == -1
        invariant Repaired(counts, minimums, receiver) == Repaired(before, minimums, 0)
        decreases minimums[receiver] - counts[receiver], if exhausted then 0 else 1
      {
        var donor := DonorFrom(counts, minimums, 0);
        if donor == -1 {
          exhausted := true;
        } else {
          counts := Transfer(counts, donor, receiver);
        }
      }
    }
  }

  // ----- the whole function

  /** What a split manifest may rely on. */
  ghost predicate Fair(n: nat, ratios: Ratios, counts: Counts)
    requires Usable(ratios)
  {
    && Total(counts) == n
    && (forall i :: 0 <= i < 3 ==> counts[i] >= 0 && (ratios[i] == 0.0 ==> counts[i] == 0))
    && (n >= 1 ==> counts[TRAIN] >= 1)
    && (n >= 3 ==> forall i :: 0 <= i < 3 ==>
          && (ratios[i] > 0.0 ==> counts[i] >= 1)
          && Quota(n, ratios, i) - 2.0 <= counts[i] as real < Quota(n, ratios, i) + 1.0)
  }

  function Minimums(n: nat, ratios: Ratios): (m: Counts) {
    var train := if n > 0 then 1 else 0;
    var active := (if ratios[0] > 0.0 then 1 else 0) + (if ratios[1] > 0.0 then 1 else 0) +
                  (if ratios[2] > 0.0 then 1 else 0);
    if n >= active then
      [if ratios[0] > 0.0 then 1 else train, if ratios[1] > 0.0 then 1 else 0, if ratios[2] > 0.0 then 1 else 0]
    else [train, 0, 0]
  }

  /** Repairing a largest-remainder allocation of at least three episodes moves at most two seats away from any
      split, and two only from a split that holds them all. */
  lemma RepairedIsFair(n: nat, ratios: Ratios, rounded: Counts)
    requires Usable(ratios) && LargestRemainder(n, ratios, rounded) && n >= 3
    ensures Fair(n, ratios, Repaired(rounded, Minimums(n, ratios), 0))
  {
    LargestRemainderBounds(n, ratios, rounded);
    var minimums := Minimums(n, ratios);
    RepairedKeeps(rounded, rounded, minimums, 0);
    var counts := Repaired(rounded, minimums, 0);
    RepairedMeetsMinimums(n, ratios, rounded, counts);
    forall i: nat | i < 3
      ensures Quota(n, ratios, i) - 2.0 <= counts[i] as real < Quota(n, ratios, i) + 1.0
    {
      RepairedNearQuota(n, ratios, rounded, counts, i);
    }
  }

  lemma RepairedMeetsMinimums(n: nat, ratios: Ratios, rounded: Counts, counts: Counts)
    requires Usable(ratios) && n >= 3 && Total(rounded) == n && Kept(rounded, counts, Minimums(n, ratios))
    requires forall i :: 0 <= i < 3 ==> rounded[i] >= 0 && (ratios[i] == 0.0 ==> rounded[i] == 0)
    requires forall i :: 0 <= i < 3 ==> counts[i] >= Minimums(n, ratios)[i]
    ensures Total(counts) == n && counts[TRAIN] >= 1
    ensures forall i :: 0 <= i < 3 ==>
              counts[i] >= 0 && (ratios[i] == 0.0 ==> counts[i] == 0) && (ratios[i] > 0.0 ==> counts[i] >= 1)
  {
  }

  lemma RepairedNearQuota(n: nat, ratios: Ratios, rounded: Counts, counts: Counts, i: nat)
    requires Usable(ratios) && LargestRemainder(n, ratios, rounded) && n >= 3 && i < 3
    requires Kept(rounded, counts, Minimums(n, ratios))
    requires forall k :: 0 <= k < 3 ==> counts[k] >= Minimums(n, ratios)[k]
    ensures Quota(n, ratios, i) - 2.0 <= counts[i] as real < Quota(n, ratios, i) + 1.0
  {
    LargestRemainderBounds(n, ratios, rounded);
    QuotaRange(n, ratios, i);
    MovesFew(n, rounded, counts, Minimums(n, ratios), i, Quota(n, ratios, i));
  }

  lemma QuotaRange(n: nat, ratios: Ratios, i: nat)
    requires Usable(ratios) && i < 3 && n > 0
    ensures 0.0 <= Quota(n, ratios, i) <= n as real && (ratios[i] > 0.0 ==> Quota(n, ratios, i) > 0.0)
  {
    QuotasAddUp(n, ratios);
  }

  /** The count of one split after the repair, from its quota alone. */
  lemma MovesFew(n: nat, rounded: Counts, counts: Counts, minimums: Counts, i: nat, quota: real)
    requires i < 3 && n >= 3 && Total(rounded) == n && Kept(rounded, counts, minimums)
    requires forall k :: 0 <= k < 3 ==> rounded[k] >= 0 && 0 <= minimums[k] <= 1 && counts[k] >= minimums[k]
    requires 0.0 <= quota <= n as real && quota - 1.0 < rounded[i] as real < quota + 1.0
    requires minimums[i] == 1 ==> quota > 0.0
    ensures quota - 2.0 <= counts[i] as real < quota + 1.0
  {
  }

  /** Repairing an allocation that already meets every minimum changes nothing. */
  lemma RepairIsIdleWhenMet(counts: Counts, minimums: Counts)
    requires forall i :: 0 <= i < 3 ==> counts[i] >= minimums[i]
    ensures Repaired(counts, minimums, 0) == counts
  {
    assert Repaired(counts, minimums, 2) == counts;
  }

  /** The counts are those of the function: fixed for up to two episodes, and from three on the repair of the
      largest-remainder allocation. */
  ghost predicate IsAllocation(n: nat, ratios: Ratios, counts: Counts)
    requires Usable(ratios)
  {
    if n == 0 then counts == [0, 0, 0]
    else if n == 1 then counts == [1, 0, 0]
    else if n == 2 then
      if ratios[VALIDATION] == 0.0 && ratios[TEST] == 0.0 then counts == [2, 0, 0]
      else counts == if ratios[VALIDATION] >= ratios[TEST] then [1, 1, 0] else [1, 0, 1]
    else exists c :: LargestRemainder(n, ratios, c) && counts == Repaired(c, Minimums(n, ratios), 0)
  }

  /** The number of episodes and the ratios determine the counts. */
  lemma AllocationUnique(n: nat, ratios: Ratios, c: Counts, d: Counts)
    requires Usable(ratios) && IsAllocation(n, ratios, c) && IsAllocation(n, ratios, d)
    ensures c == d
  {
    if n >= 3 {
      var c' :| LargestRemainder(n, ratios, c') && c == Repaired(c', Minimums(n, ratios), 0);
      var d' :| LargestRemainder(n, ratios, d') && d == Repaired(d', Minimums(n, ratios), 0);
      LargestRemainderUnique(n, ratios, c', d');
    }
  }

  method AllocateCounts(n: nat, ratios: Ratios) returns (outcome: Outcome)
    ensures outcome.NegativeRatio? <==> exists i :: 0 <= i < 3 && ratios[i] < 0.0
    ensures outcome.Allocated? <==> Usable(ratios)
    ensures outcome.Allocated? ==> IsAllocation(n, ratios, outcome.counts) && Fair(n, ratios, outcome.counts)
    ensures outcome.Allocated? ==> Total(outcome.counts) == n && forall i :: 0 <= i < 3 ==> outcome.counts[i] >= 0
  {
    if ratios[0] < 0.0 || ratios[1] < 0.0 || ratios[2] < 0.0 {
      return NegativeRatio;
    }
    if ratios[TRAIN] <= 0.0 {
      return NoTrainRatio;
    }
    if n == 1 {
      return Allocated([1, 0, 0]);
    }
    if n == 2 {
      outcome := AllocatePair(ratios);
      return;
    }
    var rounded := RoundByRemainder(n, ratios);
    var counts := Repair(rounded, Minimums(n, ratios));
    if n >= 3 {
      RepairedIsFair(n, ratios, rounded);
    } else {
      EmptyIsFair(ratios, rounded);
    }
    return Allocated(counts);
  }

  lemma EmptyIsFair(ratios: Ratios, rounded: Counts)
    requires Usable(ratios) && LargestRemainder(0, ratios, rounded)
    ensures Repaired(rounded, Minimums(0, ratios), 0) == [0, 0, 0]
  {
    LargestRemainderBounds(0, ratios, rounded);
    RepairIsIdleWhenMet(rounded, Minimums(0, ratios));
  }

  /** Two episodes: one for training, one for the larger positive ratio of the others, validation on a tie. */
  method AllocatePair(ratios: Ratios) returns (outcome: Outcome)
    requires Usable(ratios)
    ensures outcome.Allocated? && Fair(2, ratios, outcome.counts) && IsAllocation(2, ratios, outcome.counts)
  {
    if ratios[VALIDATION] <= 0.0 && ratios[TEST] <= 0.0 {
      return Allocated([2, 0, 0]);
    }
    var secondary := if ratios[VALIDATION] > 0.0 && (ratios[TEST] <= 0.0 || ratios[VALIDATION] >= ratios[TEST])
                     then VALIDATION else TEST;
    return Allocated([1, 0, 0][secondary := 1]);
  }
}
