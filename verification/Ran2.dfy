/** The random number generator: two multiplicative generators combined through a shuffle table. */
module Ran2 {

  import opened Powers

  const IM1 := 2147483563
  const IM2 := 2147483399
  const IMM1 := IM1 - 1
  const IA1 := 40014
  const IA2 := 40692
  const IQ1 := 53668
  const IQ2 := 52774
  const IR1 := 12211
  const IR2 := 3791
  const NTAB := 32
  const NDIV := 1 + IMM1 / NTAB
  const INT_MAX := 2147483647
  /** IA1 * INVERSE1 == 1 + IM1 * QUOTIENT1, and likewise for the second generator. */
  const INVERSE1 := 2082061899
  const QUOTIENT1 := 38795
  const INVERSE2 := 1481316021
  const QUOTIENT2 := 28069
  /** The largest value a draw returns. */
  const RNMX := 1.0 - 0.00000012

  /** One step of a multiplicative generator by Schrage's method: no intermediate leaves 32 bits. */
  function Schrage(s: int, a: int, q: int, r: int, m: int): int
    requires q != 0
  {
    var k := s / q;
    var t := a * (s - k * q) - k * r;
    if t < 0 then t + m else t
  }

  function Step1(s: int): int { Schrage(s, IA1, IQ1, IR1, IM1) }
  function Step2(s: int): int { Schrage(s, IA2, IQ2, IR2, IM2) }

  predicate FitsInt(x: int) {
    -INT_MAX - 1 <= x <= INT_MAX
  }

  /** Every intermediate of a step on s fits 32 bits. */
  predicate NoOverflow(s: int, a: int, q: int, r: int, m: int)
    requires q != 0
  {
    var k := s / q;
    FitsInt(k * q) && FitsInt(a * (s - k * q)) && FitsInt(k * r) && FitsInt(a * (s - k * q) - k * r)
    && FitsInt(Schrage(s, a, q, r, m))
  }

  /** Schrage's form computes the modular product exactly, for every seed magnitude an int can give. */
  lemma Step1IsModularProduct(s: int)
    requires 0 <= s <= INT_MAX + 1
    ensures Step1(s) == (IA1 * s) % IM1 && 0 <= Step1(s) < IM1
    ensures NoOverflow(s, IA1, IQ1, IR1, IM1)
  {
    var k := s / IQ1;
    var t := IA1 * (s - k * IQ1) - k * IR1;
    assert 0 <= s - k * IQ1 < IQ1 && 0 <= k <= 40015;
    assert IA1 * s == IM1 * k + t;
    if t < 0 {
      ModuloUnique(IA1 * s, IM1, k - 1, t + IM1);
    } else {
      ModuloUnique(IA1 * s, IM1, k, t);
    }
  }

  lemma Step2IsModularProduct(s: int)
    requires 0 <= s <= INT_MAX + 1
    ensures Step2(s) == (IA2 * s) % IM2 && 0 <= Step2(s) < IM2
    ensures NoOverflow(s, IA2, IQ2, IR2, IM2)
  {
    var k := s / IQ2;
    var t := IA2 * (s - k * IQ2) - k * IR2;
    assert 0 <= s - k * IQ2 < IQ2 && 0 <= k <= 40693;
    assert IA2 * s == IM2 * k + t;
    if t < 0 {
      ModuloUnique(IA2 * s, IM2, k - 1, t + IM2);
    } else {
      ModuloUnique(IA2 * s, IM2, k, t);
    }
  }

  lemma ModuloUnique(x: int, m: int, k: int, t: int)
    requires m > 0 && x == m * k + t && 0 <= t < m
    ensures x % m == t
  {
    var d := x / m - k;
    assert m * d == t - x % m;
    if d != 0 {
      MultipleIsFar(m, d);
    }
  }

  lemma MultipleIsFar(m: int, d: int)
    requires m > 0 && d != 0
    ensures m * d >= m || m * d <= -m
  {
  }

  /** The first generator reaches zero only from a multiple of its modulus: IA1 is invertible modulo IM1. */
  lemma Step1Zero(s: int)
    requires 0 <= s <= INT_MAX + 1
    ensures 0 <= Step1(s) < IM1
    ensures Step1(s) == 0 <==> s == 0 || s == IM1
  {
    hide Step1;
    Step1IsModularProduct(s);
    if s == 0 || s == IM1 {
      ModuloUnique(IA1 * s, IM1, if s == 0 then 0 else IA1, 0);
    } else if Step1(s) == 0 {
      var j := DivideExactly(IA1 * s, IM1);
      Cancel1(s, j);
    }
  }

  lemma Step2Zero(s: int)
    requires 0 <= s <= INT_MAX + 1
    ensures 0 <= Step2(s) < IM2
    ensures Step2(s) == 0 <==> s == 0 || s == IM2
  {
    hide Step2;
    Step2IsModularProduct(s);
    if s == 0 || s == IM2 {
      ModuloUnique(IA2 * s, IM2, if s == 0 then 0 else IA2, 0);
    } else if Step2(s) == 0 {
      var j := DivideExactly(IA2 * s, IM2);
      Cancel2(s, j);
    }
  }

  lemma DivideExactly(x: int, m: int) returns (j: int)
    requires m > 0 && x % m == 0
    ensures x == m * j
  {
    j := x / m;
  }

  lemma Cancel1(s: int, j: int)
    requires IA1 * s == IM1 * j && 0 <= s <= INT_MAX + 1
    ensures s == 0 || s == IM1
  {
    var u := INVERSE1 * j - QUOTIENT1 * s;
    assert s == IM1 * u;
  }

  lemma Cancel2(s: int, j: int)
    requires IA2 * s == IM2 * j && 0 <= s <= INT_MAX + 1
    ensures s == 0 || s == IM2
  {
    var u := INVERSE2 * j - QUOTIENT2 * s;
    assert s == IM2 * u;
  }

  // ---------- The whole generator ----------

  /** The generator's fields as a value. */
  datatype State = State(state: int, idum2: int, iy: int, iv: seq<int>)

  /** n steps of the first generator. */
  function Warm(s: int, n: nat): int {
    if n == 0 then s else Step1(Warm(s, n - 1))
  }

  function Steps2(s: int, n: nat): int {
    if n == 0 then s else Step2(Steps2(s, n - 1))
  }

  /** The positive number a non-positive state seeds the generator with. */
  function Magnitude(state: int): int {
    if -state < 1 then 1 else -state
  }

  /** The shuffle table, filled from its end while the first generator warms up. */
  function Table(s: int): (t: seq<int>)
    ensures |t| == NTAB
  {
    seq(NTAB, j requires 0 <= j < NTAB => Warm(s, NTAB + 8 - j))
  }

  function Seeded(s: int): State {
    State(Warm(s, NTAB + 8), s, Warm(s, NTAB + 8), Table(s))
  }

  function WrapPositive(y: int): int {
    if y < 1 then y + IMM1 else y
  }

  function Advance(g: State): State
    requires |g.iv| == NTAB && 0 <= g.iy / NDIV < NTAB
  {
    var j := g.iy / NDIV;
    State(Step1(g.state), Step2(g.idum2), WrapPositive(g.iv[j] - Step2(g.idum2)), g.iv[j := Step1(g.state)])
  }

  /** All fields are where a seeded generator keeps them. */
  predicate Running(g: State) {
    && 1 <= g.state < IM1 && 1 <= g.idum2 < IM2 && 1 <= g.iy <= IMM1
    && |g.iv| == NTAB && (forall j :: 0 <= j < NTAB ==> 1 <= g.iv[j] < IM1)
  }

  /** A draw is defined: the generator will seed itself, or its fields are in range, zero included. */
  predicate Usable(g: State) {
    && |g.iv| == NTAB
    && (g.state <= 0 ==> -INT_MAX - 1 <= g.state)
    && (g.state > 0 ==> g.state < IM1 && 0 <= g.idum2 <= INT_MAX + 1 && 0 <= g.iy <= IMM1
                        && forall j :: 0 <= j < NTAB ==> 0 <= g.iv[j] < IM1)
  }

  /** The fields after seeding, if that is due. */
  function Prepared(g: State): State {
    if g.state <= 0 then Seeded(Magnitude(g.state)) else g
  }

  lemma {:induction false} WarmRange(s: int, n: nat)
    requires 0 < s <= INT_MAX + 1 && n > 0
    ensures 0 <= Warm(s, n) < IM1
    ensures Warm(s, n) == 0 <==> s == IM1
  {
    if n > 1 {
      WarmRange(s, n - 1);
    }
    hide Step1;
    Step1Zero(Warm(s, n - 1));
  }

  lemma SeededRange(s: int)
    requires 0 < s <= INT_MAX + 1
    ensures var g := Seeded(s);
      && 0 <= g.state < IM1 && 0 <= g.iy < IM1
      && (forall j :: 0 <= j < NTAB ==> 0 <= g.iv[j] < IM1 && (g.iv[j] == 0 <==> s == IM1))
      && (g.state == 0 <==> s == IM1) && (g.iy == 0 <==> s == IM1)
  {
    hide Warm;
    WarmRange(s, NTAB + 8);
    forall j | 0 <= j < NTAB
      ensures 0 <= Table(s)[j] < IM1 && (Table(s)[j] == 0 <==> s == IM1)
    {
      WarmRange(s, NTAB + 8 - j);
    }
  }

  lemma TableIndexInRange(iy: int)
    requires 0 <= iy <= IMM1
    ensures 0 <= iy / NDIV < NTAB
  {
  }

  /** A draw can always index the table. */
  lemma PreparedIndex(g: State)
    requires Usable(g)
    ensures |Prepared(g).iv| == NTAB && 0 <= Prepared(g).iy <= IMM1 && 0 <= Prepared(g).iy / NDIV < NTAB
  {
    hide Warm;
    if g.state <= 0 {
      SeededRange(Magnitude(g.state));
    }
    TableIndexInRange(Prepared(g).iy);
  }

  /** The state after a draw. */
  function Draw(g: State): State
    requires Usable(g)
  {
    PreparedIndex(g);
    Advance(Prepared(g))
  }

  /** Whatever the seed, a draw leaves the combined value in 1..IMM1 and the generator usable. */
  lemma DrawKeepsUsable(g: State)
    requires Usable(g)
    ensures Usable(Draw(g)) && 1 <= Draw(g).iy <= IMM1
    ensures 0 <= Draw(g).state < IM1 && 0 <= Draw(g).idum2 < IM2
  {
    hide Warm, Step1, Step2, Table;
    var p := Prepared(g);
    PreparedIndex(g);
    if g.state <= 0 {
      SeededRange(Magnitude(g.state));
    }
    Step1Zero(p.state);
    Step2Zero(p.idum2);
  }

  /** A running generator keeps running. */
  lemma DrawKeepsRunning(g: State)
    requires Running(g)
    ensures Usable(g) && Running(Draw(g))
  {
    hide Warm, Step1, Step2, Table;
    PreparedIndex(g);
    Step1Zero(g.state);
    Step2Zero(g.idum2);
  }

  /** The constructor's state; the table is whatever memory held. */
  function Initial(seed: int, memory: seq<int>): State {
    State(if seed > 1 then -seed else seed, 123456789, 0, memory)
  }

  predicate IsSeed(seed: int) {
    FitsInt(seed)
  }

  /** The seeds that start the generator properly: 1 skips seeding, and the two moduli degenerate to zero. */
  predicate Admissible(seed: int) {
    seed != 1 && seed != IM1 && seed != -IM1 && seed != IM2 && seed != -IM2
  }

  lemma InitialUsable(seed: int, memory: seq<int>)
    requires IsSeed(seed) && seed != 1 && |memory| == NTAB
    ensures Usable(Initial(seed, memory))
  {
  }

  /** The first draw starts the generator exactly for the admissible seeds. */
  lemma FirstDraw(seed: int, memory: seq<int>)
    requires IsSeed(seed) && seed != 1 && |memory| == NTAB
    ensures Usable(Initial(seed, memory))
    ensures Running(Draw(Initial(seed, memory))) <==> Admissible(seed)
  {
    hide Warm, Step1, Step2, Table;
    var g := Initial(seed, memory);
    var s := Magnitude(g.state);
    PreparedIndex(g);
    SeededRange(s);
    DrawKeepsUsable(g);
    Step1Zero(Seeded(s).state);
    Step2Zero(s);
  }

  /** The state after n draws. */
  function Nth(seed: int, memory: seq<int>, n: nat): (g: State)
    requires IsSeed(seed) && seed != 1 && |memory| == NTAB
    ensures Usable(g)
  {
    if n == 0 then InitialUsable(seed, memory); Initial(seed, memory)
    else
      var g := Nth(seed, memory, n - 1);
      DrawKeepsUsable(g);
      Draw(g)
  }

  lemma {:induction false} AdmissibleRuns(seed: int, memory: seq<int>, n: nat)
    requires IsSeed(seed) && Admissible(seed) && |memory| == NTAB && n > 0
    ensures Running(Nth(seed, memory, n))
  {
    hide Draw;
    if n == 1 {
      assert Nth(seed, memory, 1) == Draw(Nth(seed, memory, 0));
      FirstDraw(seed, memory);
    } else {
      AdmissibleRuns(seed, memory, n - 1);
      DrawKeepsRunning(Nth(seed, memory, n - 1));
    }
  }

  /** The state after the first draw; it is defined for every seed and every content of the table's memory. */
  function FirstState(seed: int, memory: seq<int>): State
    requires IsSeed(seed) && |memory| == NTAB
  {
    if seed == 1 then Advance(Initial(1, memory))
    else InitialUsable(seed, memory); Draw(Initial(seed, memory))
  }

  /** Seed 1 is not negated: seeding is skipped and the first draw works on the table as memory had it. */
  lemma SeedOneSkipsSeeding(memory: seq<int>)
    requires |memory| == NTAB
    ensures var g := Initial(1, memory);
      && Prepared(g) == g
      && FirstState(1, memory).iv == memory[0 := IA1]
      && FirstState(1, memory).iy == WrapPositive(memory[0] - Step2(123456789))
  {
    hide Step2;
    assert Step1(1) == IA1;
  }

  /** The memory contents that make a table for seed 1. */
  predicate SoundMemory(memory: seq<int>)
    requires |memory| == NTAB
  {
    && (forall j :: 1 <= j < NTAB ==> 1 <= memory[j] < IM1)
    && 1 <= WrapPositive(memory[0] - Step2(123456789)) <= IMM1
  }

  lemma SeedOneExactly(memory: seq<int>)
    requires |memory| == NTAB
    ensures Running(FirstState(1, memory)) <==> SoundMemory(memory)
  {
    hide Step1, Step2;
    var g := FirstState(1, memory);
    SeedOneSkipsSeeding(memory);
    Step1Zero(1);
    Step2Zero(123456789);
    assert forall j :: 1 <= j < NTAB ==> g.iv[j] == memory[j];
  }

  /** On memory that holds values of the table's range, only zeros behind the first entry do harm. */
  lemma SeedOneOnTableValues(memory: seq<int>)
    requires |memory| == NTAB && forall j :: 0 <= j < NTAB ==> 0 <= memory[j] < IM1
    ensures SoundMemory(memory) <==> forall j :: 1 <= j < NTAB ==> memory[j] != 0
  {
    hide Step2;
    Step2Zero(123456789);
  }

  /** Every draw from g on leaves all fields in range, for n more draws. */
  predicate KeepsRunning(g: State, n: nat)
    decreases n
  {
    Running(g) && (n == 0 || (DrawKeepsRunning(g); KeepsRunning(Draw(g), n - 1)))
  }

  lemma {:induction false} RunningKeepsRunning(g: State, n: nat)
    requires Running(g)
    ensures KeepsRunning(g, n)
    decreases n
  {
    hide Draw, Running;
    if n > 0 {
      DrawKeepsRunning(g);
      RunningKeepsRunning(Draw(g), n - 1);
    }
  }

  /** All fields stay in range for all draws. */
  ghost predicate RunsOn(g: State) {
    forall n: nat :: KeepsRunning(g, n)
  }

  lemma RunsOnExactly(g: State)
    ensures RunsOn(g) <==> Running(g)
  {
    hide Draw, Running;
    assert RunsOn(g) ==> KeepsRunning(g, 0);
    if Running(g) {
      forall n: nat
        ensures KeepsRunning(g, n)
      {
        RunningKeepsRunning(g, n);
      }
    }
  }

  /** The seeds, and for seed 1 the memory contents, that start the generator properly. */
  predicate Starts(seed: int, memory: seq<int>)
    requires |memory| == NTAB
  {
    if seed == 1 then SoundMemory(memory) else Admissible(seed)
  }

  /** For every seed and memory: all fields stay in range, and seeding happens once, exactly after a proper start. */
  lemma RunsForever(seed: int, memory: seq<int>)
    requires IsSeed(seed) && |memory| == NTAB
    ensures RunsOn(FirstState(seed, memory)) <==> Starts(seed, memory)
  {
    hide Draw, Advance, Running, SoundMemory, Admissible, RunsOn;
    RunsOnExactly(FirstState(seed, memory));
    if seed == 1 {
      SeedOneExactly(memory);
    } else {
      FirstDraw(seed, memory);
    }
  }

  // ---------- Closed form of the two underlying sequences ----------

  /** Reducing before multiplying does not change the residue. */
  lemma ReduceFactor(a: int, x: int, m: int)
    requires m > 0
    ensures (a * (x % m)) % m == (a * x) % m
  {
    var q, y := x / m, x % m;
    var k, t := (a * y) / m, (a * y) % m;
    assert a * x == a * (m * q + y) == m * (a * q + k) + t by {
      assert x == m * q + y;
      assert a * (m * q + y) == a * (m * q) + a * y;
      assert a * (m * q) == m * (a * q);
      assert a * y == m * k + t;
    }
    ModuloUnique(a * x, m, a * q + k, t);
  }

  lemma {:induction false} WarmClosedForm(s: int, n: nat)
    requires 0 < s <= INT_MAX + 1 && n > 0
    ensures Warm(s, n) == (Power(IA1, n) * s) % IM1
  {
    hide Step1;
    if n == 1 {
      Step1IsModularProduct(s);
      assert Power(IA1, 1) == Power(IA1, 0) * IA1;
    } else {
      var x := Power(IA1, n - 1) * s;
      WarmClosedForm(s, n - 1);
      WarmRange(s, n - 1);
      Step1IsModularProduct(Warm(s, n - 1));
      ReduceFactor(IA1, x, IM1);
      MulAssociative(IA1, Power(IA1, n - 1), s);
    }
  }

  lemma MulAssociative(a: int, b: int, c: int)
    ensures (a * b) * c == a * (b * c)
  {
  }

  /** After n draws the first generator has taken 40 + n steps from the seed and the second n steps. */
  lemma {:induction false} NthFollowsSequences(seed: int, memory: seq<int>, n: nat)
    requires IsSeed(seed) && Admissible(seed) && |memory| == NTAB && n > 0
    ensures var s := Magnitude(Initial(seed, memory).state);
      Nth(seed, memory, n).state == Warm(s, NTAB + 8 + n) && Nth(seed, memory, n).idum2 == Steps2(s, n)
  {
    hide Step1, Step2, Table;
    var s := Magnitude(Initial(seed, memory).state);
    var before := Nth(seed, memory, n - 1);
    PreparedIndex(before);
    if n > 1 {
      NthFollowsSequences(seed, memory, n - 1);
      AdmissibleRuns(seed, memory, n - 1);
    } else {
      assert Steps2(s, 1) == Step2(Steps2(s, 0));
    }
    assert Warm(s, NTAB + 8 + n) == Step1(Warm(s, NTAB + 8 + n - 1));
  }

  // ---------- What seeding and a draw do, in numbers ----------

  /** Seeding starts both sequences at the seed's magnitude (one for seed zero), whatever its sign. */
  lemma SeedMagnitude(seed: int, memory: seq<int>)
    requires IsSeed(seed) && seed != 1
    ensures var s := if seed == 0 then 1 else if seed < 0 then -seed else seed;
      Prepared(Initial(seed, memory)) == Seeded(s)
  {
    hide Seeded;
  }

  /** After seeding with s the table holds the first sequence backwards: entry j is its element 40 - j. */
  lemma SeededTable(s: int, j: nat)
    requires 0 < s <= INT_MAX + 1 && j < 32
    ensures Seeded(s).idum2 == s && Seeded(s).iy == Seeded(s).iv[0] && |Seeded(s).iv| == 32
    ensures Seeded(s).state == (Power(40014, 40) * s) % 2147483563
    ensures Seeded(s).iv[j] == (Power(40014, 40 - j) * s) % 2147483563
  {
    hide Warm, Power;
    WarmClosedForm(s, 40);
    WarmClosedForm(s, 40 - j);
  }

  /**
   * A draw of a running generator advances both sequences by one modular
   * product, replaces exactly the table entry that the leading part of iy
   * selects, and combines the replaced entry with the second sequence.
   */
  lemma DrawShuffles(g: State, j: nat)
    requires Running(g) && j * 67108862 <= g.iy < (j + 1) * 67108862
    ensures j < 32 && Usable(g)
    ensures Draw(g).state == (40014 * g.state) % 2147483563
    ensures Draw(g).idum2 == (40692 * g.idum2) % 2147483399
    ensures Draw(g).iv == g.iv[j := Draw(g).state]
    ensures 1 <= Draw(g).iy <= 2147483562 && (Draw(g).iy - (g.iv[j] - Draw(g).idum2)) % 2147483562 == 0
  {
    hide Step1, Step2;
    Step1IsModularProduct(g.state);
    Step2IsModularProduct(g.idum2);
    DrawKeepsRunning(g);
    SlotOf(g.iy, j);
  }

  lemma SlotOf(iy: int, j: nat)
    requires 0 <= iy <= IMM1 && j * 67108862 <= iy < (j + 1) * 67108862
    ensures iy / NDIV == j < NTAB
  {
  }

  // ---------- The generator object ----------

  /** The real number a draw reports for its combined value. */
  function Output(iy: int): real {
    var temp := (1.0 / IM1 as real) * iy as real;
    if temp > RNMX then RNMX else temp
  }

  /** r is iy over the first modulus, capped just below one. */
  ghost predicate IsOutput(r: real, iy: int) {
    if iy as real > 0.99999988 * 2147483563.0 then r == 0.99999988 else r * 2147483563.0 == iy as real
  }

  lemma OutputExact(iy: int)
    requires 1 <= iy <= IMM1
    ensures 0.0 < Output(iy) < 1.0 && IsOutput(Output(iy), iy)
  {
    var temp := (1.0 / IM1 as real) * iy as real;
    assert temp * 2147483563.0 == iy as real;
  }

  class Random {
    var state: int
    var idum2: int
    var iy: int
    const iv: array<int>

    function Value(): State
      reads this, iv
    {
      State(state, idum2, iy, iv[..])
    }

    constructor (seed: int)
      ensures fresh(iv) && iv.Length == NTAB
      ensures Value() == Initial(seed, iv[..])
    {
      state := if seed > 1 then -seed else seed;
      idum2 := 123456789;
      iy := 0;
      iv := new int[NTAB];
    }

    /** Seeds the generator from a non-positive state. */
    method Seed()
      requires iv.Length == NTAB && -INT_MAX - 1 <= state <= 0
      modifies this, iv
      ensures Value() == Seeded(Magnitude(old(state)))
    {
      if -state < 1 {
        state := 1;
      } else {
        state := -state;
      }
      idum2 := state;
      ghost var s := state;
      hide Step1;
      var j := NTAB + 7;
      while j >= 0
        invariant -1 <= j <= NTAB + 7
        invariant state == Warm(s, NTAB + 7 - j) && idum2 == s
        invariant forall i :: j < i < NTAB ==> iv[i] == Warm(s, NTAB + 8 - i)
        decreases j
      {
        state := Step1(state);
        if j < NTAB {
          iv[j] := state;
        }
        j := j - 1;
      }
      iy := iv[0];
      assert iv[..] == Table(s);
    }

    /** A value strictly between 0 and 1. */
    method RandFloat() returns (r: real)
      requires Usable(Value())
      modifies this, iv
      ensures Value() == Draw(old(Value())) && Usable(Value())
      ensures r == Output(iy) && 0.0 < r < 1.0 && IsOutput(r, iy)
    {
      DrawKeepsUsable(Value());
      PreparedIndex(Value());
      if state <= 0 {
        Seed();
      }
      state := Step1(state);
      idum2 := Step2(idum2);
      var j := iy / NDIV;
      iy := iv[j] - idum2;
      iv[j] := state;
      if iy < 1 {
        iy := iy + IMM1;
      }
      r := Output(iy);
      OutputExact(iy);
    }

    /** An integer from 0 up to, but not including, INT_MAX. */
    method RandInt() returns (n: int)
      requires Usable(Value())
      modifies this, iv
      ensures Value() == Draw(old(Value())) && Usable(Value())
      ensures n as real <= Output(iy) * 2147483647.0 < n as real + 1.0 && IsOutput(Output(iy), iy)
      ensures 0 <= n < INT_MAX
    {
      var r := RandFloat();
      n := (r * INT_MAX as real).Floor;
    }
  }
}
