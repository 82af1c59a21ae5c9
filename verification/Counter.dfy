/** The countdown to the next snapshot. */
module Counter {
  const SNAPSHOT_FREQUENCY := 10
  const INT_MAX := 0x7fff_ffff

  /** C++ remainder: it truncates toward zero, so it takes the sign of the dividend. */
  function Rem(a: int, b: int): int
    requires b > 0
  {
    if a >= 0 then a % b else -((-a) % b)
  }

  /** The counter after one more changing set; 0 means that a snapshot is taken. */
  function Next(counter: int): (next: int)
    ensures -10 < next < 10 && (next - (counter + 1)) % 10 == 0
    ensures (counter >= 0 ==> next >= 0) && (counter < 0 ==> next <= 0)
  {
    Rem(counter + 1, SNAPSHOT_FREQUENCY)
  }

  function After(counter: int, n: nat): int
    decreases n
  {
    if n == 0 then counter else After(Next(counter), n - 1)
  }

  lemma {:induction false} CountUp(counter: int, n: nat)
    requires -SNAPSHOT_FREQUENCY < counter && counter + n <= SNAPSHOT_FREQUENCY
    decreases n
    ensures After(counter, n) == if counter + n == SNAPSHOT_FREQUENCY && n > 0 then 0 else counter + n
  {
    if n == 0 {
    } else {
      if counter + 1 < SNAPSHOT_FREQUENCY {
        assert Next(counter) == counter + 1;
        CountUp(counter + 1, n - 1);
      }
    }
  }

  /** The counter is never initialised. Whatever int it starts from, a snapshot comes with exactly
      those changing sets that bring the count up to a multiple of ten. */
  lemma SnapshotIff(counter: int, n: nat)
    requires n >= 1
    ensures After(counter, n) == 0 <==> (counter + n) % 10 == 0
  {
    AfterIsCongruent(counter, n);
  }

  lemma {:induction false} AfterIsCongruent(counter: int, n: nat)
    requires n >= 1
    ensures -10 < After(counter, n) < 10 && (After(counter, n) - (counter + n)) % 10 == 0
    decreases n
  {
    var next := Next(counter);
    if n == 1 {
      assert After(counter, 1) == After(next, 0) == next;
    } else {
      AfterIsCongruent(next, n - 1);
      assert counter + n == (counter + 1) + (n - 1);
    }
  }

  /** In particular, the first snapshot comes with one of the first ten changing sets ... */
  lemma FirstSnapshotWithinTen(counter: int)
    requires counter < INT_MAX
    ensures exists n :: 1 <= n <= SNAPSHOT_FREQUENCY && After(counter, n) == 0
  {
    var c := Next(counter);
    var n := if c <= 0 then -c else SNAPSHOT_FREQUENCY - c;
    CountUp(c, n);
    assert After(counter, n + 1) == 0;
  }

  lemma {:induction false} AfterOneMore(counter: int, n: nat)
    ensures After(counter, n + 1) == Next(After(counter, n))
    decreases n
  {
    if n == 0 {
    } else {
      AfterOneMore(Next(counter), n - 1);
    }
  }

  /** ... and from then on with every tenth one, never earlier. */
  lemma ThenEveryTenth(n: nat)
    requires 1 <= n <= SNAPSHOT_FREQUENCY
    ensures After(0, n) == 0 <==> n == SNAPSHOT_FREQUENCY
  {
    CountUp(0, n);
  }
}
