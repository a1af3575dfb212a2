/** Charger-status aggregation (`aggregateChargerStatus` in src/api.ts):
    joins a station's static charger roster with the live status items of a
    lookup and counts matched and available chargers per class. */
module Api {
  import opened Types

  /** The status code that means "waiting for a car", i.e. available. */
  const AvailableStat: string := "2"

  /** Some live item carries charger id `id`. */
  predicate Occurs(live: seq<ChargerInfoItem>, id: string) {
    exists j :: 0 <= j < |live| && live[j].chgerId == id
  }

  /** `live.find(item => item.chgerId === id)`: the first live item with id
      `id`, or nothing when no item has it. */
  function Find(live: seq<ChargerInfoItem>, id: string): (r: Option<ChargerInfoItem>)
    ensures r.None? <==> !Occurs(live, id)
    ensures r.Some? ==> r.value.chgerId == id
    ensures r.Some? ==> exists i :: 0 <= i < |live| && live[i] == r.value
                                    && forall j :: 0 <= j < i ==> live[j].chgerId != id
  {
    if live == [] then None
    else if live[0].chgerId == id then Some(live[0])
    else
      var r := Find(live[1..], id);
      assert forall j :: 0 < j < |live| ==> live[j] == live[1..][j - 1];
      if r.Some? then
        var i :| 0 <= i < |live[1..]| && live[1..][i] == r.value
                 && forall j :: 0 <= j < i ==> live[1..][j].chgerId != id;
        assert live[i + 1] == r.value;
        r
      else
        r
  }

  /** Roster charger `c` has a live item, so it enters its class's total. */
  predicate Matched(live: seq<ChargerInfoItem>, c: Charger) {
    Find(live, c.chgerId).Some?
  }

  /** Roster charger `c` has a live item and the first such item reports
      the available status, so it enters its class's available count. */
  predicate Available(live: seq<ChargerInfoItem>, c: Charger) {
    Find(live, c.chgerId).Some? && Find(live, c.chgerId).value.stat == AvailableStat
  }

  /** Number of roster chargers of class `fast` that are matched. */
  function MatchedCount(roster: seq<Charger>, live: seq<ChargerInfoItem>, fast: bool): nat {
    if roster == [] then 0
    else
      var c := roster[|roster| - 1];
      MatchedCount(roster[..|roster| - 1], live, fast) + (if c.isFast == fast && Matched(live, c) then 1 else 0)
  }

  /** Number of roster chargers of class `fast` that are available. */
  function AvailableCount(roster: seq<Charger>, live: seq<ChargerInfoItem>, fast: bool): nat {
    if roster == [] then 0
    else
      var c := roster[|roster| - 1];
      AvailableCount(roster[..|roster| - 1], live, fast) + (if c.isFast == fast && Available(live, c) then 1 else 0)
  }

  /** The `allInUse` flag as the source writes it: three cases over the
      four counters. It holds exactly when some class has chargers and no
      class that has chargers has one available. */
  function AllInUse(fastAvailable: nat, fastTotal: nat, regularAvailable: nat, regularTotal: nat): (r: bool)
    ensures r <==>
      && (fastTotal > 0 || regularTotal > 0)
      && (fastTotal > 0 ==> fastAvailable == 0)
      && (regularTotal > 0 ==> regularAvailable == 0)
  {
    || (fastTotal > 0 && fastAvailable == 0 && regularTotal == 0)
    || (regularTotal > 0 && regularAvailable == 0 && fastTotal == 0)
    || (fastTotal > 0 && fastAvailable == 0 && regularTotal > 0 && regularAvailable == 0)
  }

  /** The summary the aggregation returns, in terms of the counts above. */
  function Summary(roster: seq<Charger>, live: seq<ChargerInfoItem>): ChargerStatusSummary {
    var fast := ClassCount(AvailableCount(roster, live, true), MatchedCount(roster, live, true));
    var regular := ClassCount(AvailableCount(roster, live, false), MatchedCount(roster, live, false));
    ChargerStatusSummary(fast, regular,
      AllInUse(fast.available, fast.total, regular.available, regular.total))
  }

  /** `aggregateChargerStatus`: one pass over the roster with four counters
      and a linear search of the live list per roster charger. */
  method AggregateChargerStatus(csvChargers: seq<Charger>, apiChargers: seq<ChargerInfoItem>)
    returns (r: ChargerStatusSummary)
    ensures r == Summary(csvChargers, apiChargers)
    ensures r.allInUse <==> r.fastChargers.total + r.regularChargers.total > 0
                            && r.fastChargers.available == 0 && r.regularChargers.available == 0
  {
    var fastAvailable, fastTotal, regularAvailable, regularTotal := 0, 0, 0, 0;
    for i := 0 to |csvChargers|
      invariant fastAvailable == AvailableCount(csvChargers[..i], apiChargers, true)
      invariant fastTotal == MatchedCount(csvChargers[..i], apiChargers, true)
      invariant regularAvailable == AvailableCount(csvChargers[..i], apiChargers, false)
      invariant regularTotal == MatchedCount(csvChargers[..i], apiChargers, false)
    {
      var csvCharger := csvChargers[i];
      assert csvChargers[..i + 1][..i] == csvChargers[..i];
      var apiCharger := Find(apiChargers, csvCharger.chgerId);
      if apiCharger.None? {
        continue;
      }
      var isAvailable := apiCharger.value.stat == AvailableStat;
      if csvCharger.isFast {
        fastTotal := fastTotal + 1;
        if isAvailable {
          fastAvailable := fastAvailable + 1;
        }
      } else {
        regularTotal := regularTotal + 1;
        if isAvailable {
          regularAvailable := regularAvailable + 1;
        }
      }
    }
    assert csvChargers[..|csvChargers|] == csvChargers;
    var allInUse := AllInUse(fastAvailable, fastTotal, regularAvailable, regularTotal);
    r := ChargerStatusSummary(ClassCount(fastAvailable, fastTotal), ClassCount(regularAvailable, regularTotal), allInUse);
    AvailableWithinTotal(csvChargers, apiChargers, true);
    AvailableWithinTotal(csvChargers, apiChargers, false);
  }

  /** In each class the available count never exceeds the total. */
  lemma {:induction false} AvailableWithinTotal(roster: seq<Charger>, live: seq<ChargerInfoItem>, fast: bool)
    ensures AvailableCount(roster, live, fast) <= MatchedCount(roster, live, fast)
  {
    if roster != [] {
      AvailableWithinTotal(roster[..|roster| - 1], live, fast);
    }
  }

  /** Number of roster chargers whose id occurs somewhere in the live list. */
  function OccurringCount(roster: seq<Charger>, live: seq<ChargerInfoItem>): nat {
    if roster == [] then 0
    else OccurringCount(roster[..|roster| - 1], live) + (if Occurs(live, roster[|roster| - 1].chgerId) then 1 else 0)
  }

  /** The two totals together count exactly the roster chargers whose id
      occurs in the live list. */
  lemma {:induction false} TotalsCountOccurring(roster: seq<Charger>, live: seq<ChargerInfoItem>)
    ensures MatchedCount(roster, live, true) + MatchedCount(roster, live, false) == OccurringCount(roster, live)
  {
    if roster != [] {
      TotalsCountOccurring(roster[..|roster| - 1], live);
    }
  }

  /** The closed form of `allInUse`: something matched and nothing matched
      is available. It is false when nothing matched and false as soon as
      either class has an available charger. */
  lemma AllInUseClosedForm(roster: seq<Charger>, live: seq<ChargerInfoItem>)
    ensures var s := Summary(roster, live);
      s.allInUse <==> s.fastChargers.total + s.regularChargers.total > 0
                      && s.fastChargers.available == 0 && s.regularChargers.available == 0
  {
    AvailableWithinTotal(roster, live, true);
    AvailableWithinTotal(roster, live, false);
  }

  /** With no live data every counter is zero and `allInUse` is false. */
  lemma {:induction false} EmptyLiveAllZero(roster: seq<Charger>)
    ensures Summary(roster, []) == ChargerStatusSummary(ClassCount(0, 0), ClassCount(0, 0), false)
  {
    if roster != [] {
      EmptyLiveAllZero(roster[..|roster| - 1]);
    }
  }

  /** Counting distributes over concatenation of rosters. */
  lemma {:induction false} CountsAppend(a: seq<Charger>, b: seq<Charger>, live: seq<ChargerInfoItem>, fast: bool)
    ensures MatchedCount(a + b, live, fast) == MatchedCount(a, live, fast) + MatchedCount(b, live, fast)
    ensures AvailableCount(a + b, live, fast) == AvailableCount(a, live, fast) + AvailableCount(b, live, fast)
    decreases |b|
  {
    if b == [] {
      assert a + b == a;
    } else {
      var b' := b[..|b| - 1];
      assert (a + b)[..|a + b| - 1] == a + b';
      assert (a + b)[|a + b| - 1] == b[|b| - 1];
      CountsAppend(a, b', live, fast);
    }
  }

  /** A roster charger with no live item of its id changes no counter,
      wherever it stands in the roster. */
  lemma UnmatchedChargerIgnored(front: seq<Charger>, c: Charger, back: seq<Charger>, live: seq<ChargerInfoItem>)
    requires !Occurs(live, c.chgerId)
    ensures Summary(front + [c] + back, live) == Summary(front + back, live)
  {
    forall fast: bool
      ensures MatchedCount(front + [c] + back, live, fast) == MatchedCount(front + back, live, fast)
      ensures AvailableCount(front + [c] + back, live, fast) == AvailableCount(front + back, live, fast)
    {
      CountsAppend(front + [c], back, live, fast);
      CountsAppend(front, [c], live, fast);
      CountsAppend(front, back, live, fast);
    }
  }

  /** Rosters whose chargers see the same first live item count the same. */
  lemma {:induction false} SameFindSameCounts(roster: seq<Charger>, live1: seq<ChargerInfoItem>, live2: seq<ChargerInfoItem>, fast: bool)
    requires forall k :: 0 <= k < |roster| ==> Find(live1, roster[k].chgerId) == Find(live2, roster[k].chgerId)
    ensures MatchedCount(roster, live1, fast) == MatchedCount(roster, live2, fast)
    ensures AvailableCount(roster, live1, fast) == AvailableCount(roster, live2, fast)
  {
    if roster != [] {
      SameFindSameCounts(roster[..|roster| - 1], live1, live2, fast);
    }
  }

  /** Removing a live item does not change what `find` returns for an id
      that differs from the item's, or for an id already met earlier. */
  lemma {:induction false} FindSkips(before: seq<ChargerInfoItem>, x: ChargerInfoItem, after: seq<ChargerInfoItem>, id: string)
    requires x.chgerId != id || Occurs(before, id)
    ensures Find(before + [x] + after, id) == Find(before + after, id)
  {
    if before == [] {
      assert (before + [x] + after)[1..] == before + after;
    } else {
      assert (before + [x] + after)[1..] == before[1..] + [x] + after;
      assert (before + after)[1..] == before[1..] + after;
      if before[0].chgerId != id {
        assert Occurs(before, id) ==> Occurs(before[1..], id) by {
          if Occurs(before, id) {
            var j :| 0 <= j < |before| && before[j].chgerId == id;
            assert before[1..][j - 1] == before[j];
          }
        }
        FindSkips(before[1..], x, after, id);
      }
    }
  }

  /** Live items whose ids are not in the roster are ignored. */
  lemma ForeignLiveItemIgnored(roster: seq<Charger>, before: seq<ChargerInfoItem>, x: ChargerInfoItem, after: seq<ChargerInfoItem>)
    requires forall k :: 0 <= k < |roster| ==> roster[k].chgerId != x.chgerId
    ensures Summary(roster, before + [x] + after) == Summary(roster, before + after)
  {
    forall k | 0 <= k < |roster|
      ensures Find(before + [x] + after, roster[k].chgerId) == Find(before + after, roster[k].chgerId)
    {
      FindSkips(before, x, after, roster[k].chgerId);
    }
    SameFindSameCounts(roster, before + [x] + after, before + after, true);
    SameFindSameCounts(roster, before + [x] + after, before + after, false);
  }

  /** Only the first live item with a given id decides: a later duplicate,
      whatever its status, changes nothing. */
  lemma LaterDuplicateIgnored(roster: seq<Charger>, before: seq<ChargerInfoItem>, x: ChargerInfoItem, after: seq<ChargerInfoItem>)
    requires Occurs(before, x.chgerId)
    ensures Summary(roster, before + [x] + after) == Summary(roster, before + after)
  {
    forall k | 0 <= k < |roster|
      ensures Find(before + [x] + after, roster[k].chgerId) == Find(before + after, roster[k].chgerId)
    {
      FindSkips(before, x, after, roster[k].chgerId);
    }
    SameFindSameCounts(roster, before + [x] + after, before + after, true);
    SameFindSameCounts(roster, before + [x] + after, before + after, false);
  }

  /** A single matched charger enters its own class's total, and enters
      its available count exactly when the first live item with its id has
      the status "2"; the other class stays at zero. */
  lemma SingleMatchedCharger(c: Charger, live: seq<ChargerInfoItem>)
    requires Occurs(live, c.chgerId)
    ensures var s := Summary([c], live);
      var mine := if c.isFast then s.fastChargers else s.regularChargers;
      var other := if c.isFast then s.regularChargers else s.fastChargers;
      && mine.total == 1 && other == ClassCount(0, 0)
      && (mine.available == 1 <==> Find(live, c.chgerId).value.stat == "2")
  {
    assert [c][..0] == [];
    assert Matched(live, c);
    assert MatchedCount([c], live, c.isFast) == 1;
    assert MatchedCount([c], live, !c.isFast) == 0;
    assert AvailableCount([c], live, !c.isFast) == 0;
    assert AvailableCount([c], live, c.isFast) == (if Available(live, c) then 1 else 0);
  }
}
