/** Consistent assignment of keys to shards (apps/hubble/src/utils/jumpConsistentHash.ts). */
module JumpHash {
  import opened Arithmetic

  const MULTIPLIER := 2862933555777941757
  const TWO_64 := 0x1_0000_0000_0000_0000
  const TWO_33 := 0x2_0000_0000
  const TWO_31 := 0x8000_0000
  const MAX_SHARDS := 0x20_0000

  /** The generator; the increment comes after the modulus, so two to the 64 is reached. */
  function NextHash(hash: nat): (h: nat)
    ensures 1 <= h <= TWO_64
    ensures hash == TWO_64 ==> h == 1
  {
    hash * MULTIPLIER % TWO_64 + 1
  }

  function NextShard(b: nat, hash: nat): nat {
    (b + 1) * TWO_31 / (hash / TWO_33 + 1)
  }

  /** A step advances, except at two to the 64, where it stalls. */
  lemma StepAdvances(b: nat, hash: nat)
    requires b < MAX_SHARDS && 1 <= hash <= TWO_64
    ensures hash < TWO_64 ==> NextShard(b, hash) > b
    ensures hash == TWO_64 ==> NextShard(b, hash) == b
    ensures hash == 1 ==> NextShard(b, hash) >= MAX_SHARDS
  {
    var d := hash / TWO_33 + 1;
    if hash < TWO_64 {
      assert d <= TWO_31;
      DivisionAtLeast((b + 1) * TWO_31, d, b + 1);
    } else {
      assert d == TWO_31 + 1;
      assert (b + 1) * TWO_31 == b * d + (TWO_31 - b);
      DivisionIs((b + 1) * TWO_31, d, b, TWO_31 - b);
    }
  }

  // ---------------------------------------------------------------- the loop

  /** What the loop returns from a state with generator value `hash` and candidate shard `j`. */
  function Jump(hash: nat, j: nat, shards: nat): (b: nat)
    requires j < shards <= MAX_SHARDS
    ensures j <= b < shards
    decreases shards - j, if hash == TWO_64 then 0 else 1
  {
    var h := NextHash(hash);
    StepAdvances(j, h);
    var j' := NextShard(j, h);
    if j' < shards then Jump(h, j', shards) else j
  }

  /**
   * One turn of the loop as equations: the next generator value is congruent to the linear step
   * and between one and two to the 64, and the next candidate is the floor of the quotient.
   */
  ghost predicate IsTurn(hash: nat, j: nat, hash': nat, j': nat) {
    && 1 <= hash' <= 18446744073709551616
    && (hash * 2862933555777941757 + 1 - hash') % 18446744073709551616 == 0
    && j' * (hash' / 8589934592 + 1) <= (j + 1) * 2147483648 < (j' + 1) * (hash' / 8589934592 + 1)
  }

  /** The generator values and candidates of a run of the loop, turn by turn. */
  ghost predicate IsTrace(hs: seq<nat>, js: seq<nat>) {
    |hs| == |js| && forall i :: 0 <= i < |hs| - 1 ==> IsTurn(hs[i], js[i], hs[i + 1], js[i + 1])
  }

  lemma TurnIsTurn(hash: nat, j: nat)
    ensures IsTurn(hash, j, NextHash(hash), NextShard(j, NextHash(hash)))
  {
    var x, h := hash * MULTIPLIER, NextHash(hash);
    assert x + 1 - h == x / TWO_64 * TWO_64;
    DivisionBounds((j + 1) * TWO_31, h / TWO_33 + 1);
  }

  /** `hs` and `js` are the values that `hash` and `j` go through; the shard is the last candidate in range. */
  method JumpConsistentHash(key: nat, shards: nat) returns (shard: nat, ghost hs: seq<nat>, ghost js: seq<nat>)
    requires 1 <= shards <= 2097152
    ensures shard == Jump(key, 0, shards) < shards
    ensures IsTrace(hs, js) && |js| >= 2 && hs[0] == key && js[0] == 0
    ensures (forall i :: 0 <= i < |js| - 1 ==> js[i] < shards) && shard == js[|js| - 2] && shards <= js[|js| - 1]
  {
    var hash, j := key, 0;
    shard := 0;
    hs, js := [key], [0];
    while true
      invariant j < shards && Jump(hash, j, shards) == Jump(key, 0, shards)
      invariant IsTrace(hs, js) && |js| >= 1 && hs[0] == key && js[0] == 0 && hs[|hs| - 1] == hash && js[|js| - 1] == j
      invariant forall i :: 0 <= i < |js| ==> js[i] < shards
      decreases shards - j, if hash == TWO_64 then 0 else 1
    {
      shard := j;
      TurnIsTurn(hash, j);
      hash := NextHash(hash);
      StepAdvances(shard, hash);
      j := NextShard(shard, hash);
      hs, js := hs + [hash], js + [j];
      if j >= shards {
        break;
      }
    }
  }

  /** A key that has left shard 0. */
  lemma KnownShard()
    ensures Jump(4, 0, 2) == 1
  {
    assert NextHash(4) == 11451734223111767029;
  }

  /** One more shard leaves a key where it is or moves it to the new shard. */
  lemma {:induction false} OneMoreShard(hash: nat, j: nat, shards: nat)
    requires j < shards < MAX_SHARDS
    ensures Jump(hash, j, shards + 1) == Jump(hash, j, shards) || Jump(hash, j, shards + 1) == shards
    decreases shards - j, if hash == TWO_64 then 0 else 1
  {
    var h := NextHash(hash);
    StepAdvances(j, h);
    if NextShard(j, h) < shards {
      OneMoreShard(h, NextShard(j, h), shards);
    }
  }

  /** Growing from `n` to `m` shards moves a key only into one of the new shards. */
  lemma {:induction false} Consistent(key: nat, n: nat, m: nat)
    requires 1 <= n <= m <= MAX_SHARDS
    ensures Jump(key, 0, m) == Jump(key, 0, n) || n <= Jump(key, 0, m) < m
    decreases m
  {
    if n < m {
      Consistent(key, n, m - 1);
      OneMoreShard(key, 0, m - 1);
    }
  }

  // ---------------------------------------------------------------- floating point

  /**
   * The source divides doubles. Below two to the 53 any result within half an ulp of the exact
   * quotient, and not below an integer the quotient reaches, has the integer floor used above.
   */
  lemma FloorSurvivesRounding(a: nat, d: nat, r: real)
    requires 0 < d && a < 0x20_0000_0000_0000
    requires (a / d) as real <= r
    requires r <= a as real / d as real * (1.0 + 1.0 / 9007199254740992.0)
    ensures r.Floor == a / d
  {
    DivisionBounds(a, d);
    var q, d' := a / d, d as real;
    assert ((q + 1) * d) as real == (q + 1) as real * d';
    RoundedBelow(a as real, d', r, (q + 1) as real);
  }

  lemma RoundedBelow(a: real, d: real, r: real, s: real)
    requires 0.0 < d && 0.0 <= a < 9007199254740992.0 && a + 1.0 <= s * d
    requires r <= a / d * (1.0 + 1.0 / 9007199254740992.0)
    ensures r < s
  {
    var u := 1.0 / 9007199254740992.0;
    var x, t := a / d, a * u;
    assert x * d == a;
    Scale(r, x * (1.0 + u), d);
    assert x * (1.0 + u) * d == x * d * (1.0 + u) == a + t;
    assert t < 1.0;
    Cancel(r, s, d);
  }

  lemma Cancel(r: real, s: real, d: real)
    requires r * d < s * d && d > 0.0
    ensures r < s
  {
    if s <= r {
      Scale(s, r, d);
      assert false;
    }
  }

  lemma Scale(r: real, s: real, d: real)
    requires r <= s && d > 0.0
    ensures r * d <= s * d
  {
  }
}
