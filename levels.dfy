/** Experience-to-level mapping. db.py (`get_level`) and main.py (`calculate_level_from_exp`)
    run the same loop over two different threshold tables; the loop is modelled once here
    and the two tables are kept side by side so that their disagreement can be stated. */
module Levels {

  /** db.py's 9-entry table. */
  const DbThresholds: seq<int> := [0, 30, 80, 150, 250, 400, 600, 900, 1300]

  /** main.py's 7-entry table, used for the ranking display. */
  const BotThresholds: seq<int> := [0, 30, 80, 150, 250, 400, 600]

  ghost predicate StrictlyIncreasing(t: seq<int>) {
    forall i, j :: 0 <= i < j < |t| ==> t[i] < t[j]
  }

  /** How many thresholds, counted from the front, `exp` has reached before the first one
      it falls short of. */
  function Reached(t: seq<int>, exp: int): (k: nat)
    ensures k <= |t|
    ensures forall j :: 0 <= j < k ==> t[j] <= exp
    ensures k < |t| ==> exp < t[k]
  {
    if t == [] || exp < t[0] then 0 else 1 + Reached(t[1..], exp)
  }

  /** The level: the number of thresholds reached, with 1 as the floor. */
  function Level(t: seq<int>, exp: int): int {
    var k := Reached(t, exp);
    if k == 0 then 1 else k
  }

  function DbLevel(exp: int): int {
    Level(DbThresholds, exp)
  }

  function BotLevel(exp: int): int {
    Level(BotThresholds, exp)
  }

  /** The loop of `get_level` and `calculate_level_from_exp`: walk the table, stop at the
      first threshold above `exp`, otherwise move the level to that threshold's rank. */
  method LevelFrom(thresholds: seq<int>, exp: int) returns (level: int)
    ensures level == Level(thresholds, exp)
    ensures 1 <= level && (|thresholds| > 0 ==> level <= |thresholds|)
    ensures level > 1 ==> thresholds[level - 1] <= exp
  {
    level := 1;
    var i := 0;
    while i < |thresholds|
      invariant 0 <= i <= |thresholds|
      invariant forall j :: 0 <= j < i ==> thresholds[j] <= exp
      invariant level == if i == 0 then 1 else i
    {
      if exp < thresholds[i] {
        break;
      }
      level := i + 1;
      i := i + 1;
    }
  }

  // ---------------------------------------------------------------------------
  // Properties of the level function

  /** Level characterisation on a sorted table: the level is the rank of the last
      threshold not above `exp` (ties promote). */
  lemma LevelIsRank(t: seq<int>, exp: int, i: int)
    requires StrictlyIncreasing(t)
    requires 0 <= i < |t| && t[i] <= exp && (i + 1 == |t| || exp < t[i + 1])
    ensures Level(t, exp) == i + 1
  {
  }

  /** Reaching a threshold exactly earns its level. */
  lemma ThresholdPromotes(t: seq<int>, i: int)
    requires StrictlyIncreasing(t)
    requires 0 <= i < |t|
    ensures Level(t, t[i]) == i + 1
  {
    LevelIsRank(t, t[i], i);
  }

  /** More experience never lowers the level, whatever the table. */
  lemma {:induction false} ReachedMonotone(t: seq<int>, e1: int, e2: int)
    requires e1 <= e2
    ensures Reached(t, e1) <= Reached(t, e2)
  {
    if t != [] && e1 >= t[0] {
      ReachedMonotone(t[1..], e1, e2);
    }
  }

  lemma LevelMonotone(t: seq<int>, e1: int, e2: int)
    requires e1 <= e2
    ensures Level(t, e1) <= Level(t, e2)
  {
    ReachedMonotone(t, e1, e2);
  }

  lemma DbTableSorted()
    ensures StrictlyIncreasing(DbThresholds)
  {
  }

  lemma BotTableSorted()
    ensures StrictlyIncreasing(BotThresholds)
  {
  }

  /** db.py's table: levels 1 to 9; 29 is level 1, 30 is level 2 and 1300 is level 9. */
  lemma DbLevelFacts(exp: int)
    ensures 1 <= DbLevel(exp) <= 9
    ensures DbLevel(29) == 1 && DbLevel(30) == 2 && DbLevel(1300) == 9
  {
    DbTableSorted();
    LevelIsRank(DbThresholds, 29, 0);
    ThresholdPromotes(DbThresholds, 1);
    ThresholdPromotes(DbThresholds, 8);
  }

  /** main.py's table: levels 1 to 7, so 1300 is only level 7. */
  lemma BotLevelFacts(exp: int)
    ensures 1 <= BotLevel(exp) <= 7
    ensures BotLevel(29) == 1 && BotLevel(30) == 2 && BotLevel(1300) == 7
  {
    BotTableSorted();
    LevelIsRank(BotThresholds, 29, 0);
    ThresholdPromotes(BotThresholds, 1);
    LevelIsRank(BotThresholds, 1300, 6);
  }

  /** The two tables agree exactly below 900 experience; from 900 on the ranking shows
      level 7 while db.py reports level 8 or 9. */
  lemma TablesDiverge(exp: int)
    ensures BotLevel(exp) == DbLevel(exp) <==> exp < 900
    ensures exp >= 900 ==> BotLevel(exp) == 7 && 8 <= DbLevel(exp) <= 9
  {
    DbTableSorted();
    BotTableSorted();
    if exp < 0 {
      assert Reached(DbThresholds, exp) == 0 && Reached(BotThresholds, exp) == 0;
    } else if exp >= 900 {
      LevelIsRank(BotThresholds, exp, 6);
      if exp < 1300 {
        LevelIsRank(DbThresholds, exp, 7);
      } else {
        LevelIsRank(DbThresholds, exp, 8);
      }
    } else {
      var i := Reached(BotThresholds, exp) - 1;
      LevelIsRank(BotThresholds, exp, i);
      LevelIsRank(DbThresholds, exp, i);
    }
  }
}
