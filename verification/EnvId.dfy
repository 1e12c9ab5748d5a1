/** Environment ids (kern/env.c:231-235, inc/env.h): 32-bit arithmetic, read as two's complement. */
module EnvId {
  import opened Layout

  const GENERATION := 0x1000
  const ID_LIMIT := 0x8000_0000
  /** How many different ids one slot goes through: 2^19 - 1. */
  const CYCLE := 524287

  /** The low 32 bits of `x` as a signed number. */
  function Signed32(x: int): int {
    var u := x % ADDRESS_LIMIT;
    if u < ID_LIMIT then u else u - ADDRESS_LIMIT
  }

  /** The id env_alloc gives to slot `e`, whose last id was `id`. */
  function NextId(id: int, e: nat): int {
    var sum := Signed32(id + GENERATION);
    var generation := sum - sum % NENV;
    (if generation <= 0 then GENERATION else generation) + e
  }

  /** ENVX(id): the low ten bits. */
  function EnvX(id: int): (e: nat)
    ensures e < NENV
  {
    id % NENV
  }

  /** The id after `k` allocations of slot `e`; env_init starts every slot at 0. */
  function IdAfter(k: nat, e: nat): int {
    if k == 0 then 0 else NextId(IdAfter(k - 1, e), e)
  }

  lemma NextIdIsLater(k: nat, e: nat)
    ensures IdAfter(k + 1, e) == NextId(IdAfter(k, e), e)
  {
  }

  lemma SignedSmall(x: nat)
    requires x < ID_LIMIT
    ensures Signed32(x) == x
  {
  }

  lemma SignedWraps(e: nat)
    requires e < NENV
    ensures Signed32(ID_LIMIT + e) == e - ID_LIMIT
  {
  }

  /** The low ten bits of a word whose upper bits are a multiple of 1024. */
  lemma LowBits(x: int, q: int, e: nat)
    requires x == NENV * q + e && e < NENV
    ensures x % NENV == e
  {
  }

  /** One allocation moves generation n on to n + 1, and from the last one back to 1. */
  lemma NextGeneration(n: nat, e: nat)
    requires 1 <= n <= CYCLE && e < NENV
    ensures NextId(GENERATION * n + e, e) == GENERATION * (if n == CYCLE then 1 else n + 1) + e
  {
    hide Signed32;
    if n == CYCLE {
      SignedWraps(e);
      LowBits(e - ID_LIMIT, -2097152, e);
    } else {
      SignedSmall(GENERATION * (n + 1) + e);
      LowBits(GENERATION * (n + 1) + e, 4 * (n + 1), e);
    }
  }

  lemma ModUnique(x: int, q: int, r: int)
    requires x == CYCLE * q + r && 0 <= r < CYCLE
    ensures x % CYCLE == r
  {
  }

  /** The k-th id of a slot in closed form: generations 1, 2, ..., 2^19 - 1 and then 1 again. */
  lemma {:induction false} IdClosedForm(k: nat, e: nat)
    requires k > 0 && e < NENV
    ensures IdAfter(k, e) == GENERATION * ((k - 1) % CYCLE + 1) + e
    ensures 0 < IdAfter(k, e) < ID_LIMIT
    ensures EnvX(IdAfter(k, e)) == e
  {
    var n := (k - 1) % CYCLE + 1;
    if k > 1 {
      IdClosedForm(k - 1, e);
      var q, r := (k - 2) / CYCLE, (k - 2) % CYCLE;
      NextGeneration(r + 1, e);
      if r == CYCLE - 1 {
        ModUnique(k - 1, q + 1, 0);
      } else {
        ModUnique(k - 1, q, r + 1);
      }
    }
    IdFields(n, e);
  }

  lemma IdFields(n: nat, e: nat)
    requires 1 <= n <= CYCLE && e < NENV
    ensures 0 < GENERATION * n + e < ID_LIMIT
    ensures EnvX(GENERATION * n + e) == e
  {
    assert GENERATION * n + e == NENV * (4 * n) + e;
  }

  /** Two allocations of a slot get the same id exactly when they lie a multiple of 2^19 - 1 allocations apart. */
  lemma IdRepeats(k: nat, k': nat, e: nat)
    requires 0 < k <= k' && e < NENV
    ensures IdAfter(k, e) == IdAfter(k', e) <==> (k' - k) % CYCLE == 0
  {
    IdClosedForm(k, e);
    IdClosedForm(k', e);
    var q, q' := (k - 1) / CYCLE, (k' - 1) / CYCLE;
    var r, r' := (k - 1) % CYCLE, (k' - 1) % CYCLE;
    if r <= r' {
      ModUnique(k' - k, q' - q, r' - r);
    } else {
      ModUnique(k' - k, q' - q - 1, CYCLE + r' - r);
    }
  }
}
