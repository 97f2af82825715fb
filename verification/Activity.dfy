/**
 The simulated room activity: a saturating counter that goes up on multiples of three and
 down on other multiples of five, and its closed form.
 */
module Activity {

  /** `player_count` after the tick that raises `counter` to `counter`. */
  function NextPlayers(counter: nat, players: int, capacity: int): int {
    if counter % 3 == 0 && players < capacity then players + 1
    else if counter % 5 == 0 && players > 0 then players - 1
    else players
  }

  /** `player_count` of a room of the given capacity that has seen `age` ticks. */
  function PlayersAt(capacity: int, age: nat): int {
    if age == 0 then 0 else NextPlayers(age, PlayersAt(capacity, age - 1), capacity)
  }

  /** The occupancy never leaves `[0, capacity]`, and a room with no capacity stays empty. */
  lemma {:induction false} PlayersInRange(capacity: int, age: nat)
    ensures 0 <= PlayersAt(capacity, age)
    ensures PlayersAt(capacity, age) <= if capacity > 0 then capacity else 0
  {
    if age > 0 {
      PlayersInRange(capacity, age - 1);
    }
  }

  /** Fifteen ticks from a multiple of fifteen, starting with `p` players. */
  function Within(capacity: int, p: int, steps: nat): int
  {
    if steps == 0 then p else NextPlayers(steps, Within(capacity, p, steps - 1), capacity)
  }

  lemma SameResidues(k: nat, steps: nat)
    ensures (15 * k + steps) % 3 == steps % 3 && (15 * k + steps) % 5 == steps % 5
  {
  }

  /** Only the residue of the counter modulo fifteen matters. */
  lemma {:induction false} AgeByBlocks(capacity: int, k: nat, steps: nat)
    ensures PlayersAt(capacity, 15 * k + steps) == Within(capacity, PlayersAt(capacity, 15 * k), steps)
  {
    if steps > 0 {
      AgeByBlocks(capacity, k, steps - 1);
      SameResidues(k, steps);
      assert 15 * k + steps - 1 == 15 * k + (steps - 1);
    }
  }

  /** Below saturation the multiples of three gain a player each, five and ten lose one. */
  lemma {:induction false} RisingBlock(capacity: int, p: int, steps: nat)
    requires 0 <= p && p + 3 <= capacity && steps <= 15
    ensures Within(capacity, p, steps)
         == p + steps / 3 - (if steps >= 5 then 1 else 0) - (if steps >= 10 then 1 else 0)
  {
    if steps > 0 {
      RisingBlock(capacity, p, steps - 1);
    }
  }

  /** Occupancy at a residue modulo fifteen, once saturated. */
  function Saturated(capacity: int, residue: nat): int {
    if residue in {0, 1, 2, 5, 10, 11} then capacity - 1 else capacity
  }

  /** A block that starts within two of the capacity joins the periodic table by its tenth tick. */
  lemma {:induction false} FullBlock(capacity: int, p: int, steps: nat)
    requires 0 <= p && 1 <= capacity && capacity - 2 <= p <= capacity && steps <= 15
    ensures Within(capacity, p, steps)
         == if steps == 15 then capacity - 1
            else if steps < 3 then p
            else if p == capacity - 2 && steps < 9 then Saturated(capacity, steps) - 1
            else Saturated(capacity, steps)
  {
    if steps > 0 {
      FullBlock(capacity, p, steps - 1);
    }
  }

  /**
   Closed form at the block boundaries: three players are gained per block until fewer than three
   places are left, and from the next boundary on the room is one below capacity.
   */
  lemma {:induction false} ClosedForm(capacity: int, k: nat)
    requires capacity >= 1
    ensures k <= capacity / 3 ==> PlayersAt(capacity, 15 * k) == 3 * k
    ensures k >= capacity / 3 + 1 ==> PlayersAt(capacity, 15 * k) == capacity - 1
  {
    if k > 0 {
      ClosedForm(capacity, k - 1);
      var before := PlayersAt(capacity, 15 * (k - 1));
      AgeByBlocks(capacity, k - 1, 15);
      if k <= capacity / 3 {
        RisingBlock(capacity, before, 15);
      } else {
        FullBlock(capacity, before, 15);
      }
    }
  }

  /** Eventual period fifteen, for every capacity and every age past the first saturated boundary. */
  lemma EventualPeriod(capacity: int, age: nat)
    requires capacity >= 1 && age >= 15 * (capacity / 3 + 1)
    ensures PlayersAt(capacity, age) == Saturated(capacity, age % 15)
  {
    var k, residue := age / 15, age % 15;
    assert age == 15 * k + residue;
    ClosedForm(capacity, k);
    AgeByBlocks(capacity, k, residue);
    FullBlock(capacity, capacity - 1, residue);
  }
}
