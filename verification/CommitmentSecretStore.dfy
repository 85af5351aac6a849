/** packages/core/lib/lightning/CommitmentSecretStore.ts: 49 slots that stand in for up to
    2^48 received per-commitment secrets (BOLT #3, "Efficient Per-commitment Secret Storage"). */
module CommitmentSecretStore {
  import opened Wrappers
  import opened Numbers
  import opened Bits
  import opened CommitmentSecret

  const BITS: nat := 48
  const ALL_BITS: nat := 0xffff_ffff_ffff

  datatype Item = Item(index: nat, secret: Option<Secret>)

  datatype Error = IncorrectSecret | NotReceived

  type Slots = s: seq<Item> | |s| == BITS + 1 witness seq(BITS + 1, _ => Item(0, None))

  function Empty(): Slots {
    seq(BITS + 1, _ => Item(0, None))
  }

  // ---------------------------------------------------------------- operations

  function TrailingZerosFrom(I: nat, b: nat): (r: nat)
    requires b <= BITS
    ensures b <= r <= BITS
    decreases BITS - b
  {
    if b == BITS || Bit(I, b) then b else TrailingZerosFrom(I, b + 1)
  }

  /** `calcIndex` */
  function TrailingZeros(I: nat): nat {
    TrailingZerosFrom(I, 0)
  }

  /** The new secret at depth `B` derives what slot `b` holds; comparing with an empty slot
      throws in the source, so it is a mismatch here. */
  predicate Matches(h: Hash, item: Item, secret: Secret, B: nat) {
    item.secret == Some(Derive(h, secret, item.index, B))
  }

  /** The check of `insert`: the new secret derives what the first `n` slots hold. */
  predicate Accepts(h: Hash, slots: Slots, secret: Secret, B: nat, n: nat)
    requires n <= |slots|
  {
    forall b | 0 <= b < n :: Matches(h, slots[b], secret, B)
  }

  function Insert(h: Hash, slots: Slots, secret: Secret, i: nat): Result<Slots, Error> {
    var B := TrailingZeros(i);
    if Accepts(h, slots, secret, B, B) then Ok(slots[B := Item(i, Some(secret))]) else Err(IncorrectSecret)
  }

  /** The source's mask: all 48 bits, less the low `b`. */
  function Mask(b: nat): nat {
    Shl(Shr(ALL_BITS, b), b)
  }

  predicate CanDerive(item: Item, b: nat, i: nat) {
    And(i, Mask(b)) == item.index && item.secret.Some?
  }

  function LookupFrom(h: Hash, slots: Slots, i: nat, b: nat): Result<Secret, Error>
    requires b <= |slots|
    decreases |slots| - b
  {
    if b == |slots| then Err(NotReceived)
    else if CanDerive(slots[b], b, i) then Ok(Derive(h, slots[b].secret.value, i, b))
    else LookupFrom(h, slots, i, b + 1)
  }

  /** `derive` */
  function Lookup(h: Hash, slots: Slots, i: nat): Result<Secret, Error> {
    LookupFrom(h, slots, i, 0)
  }

  lemma {:induction false} TrailingZerosBits(I: nat, b: nat)
    requires b <= BITS
    ensures forall c | b <= c < TrailingZerosFrom(I, b) :: !Bit(I, c)
    ensures TrailingZerosFrom(I, b) < BITS ==> Bit(I, TrailingZerosFrom(I, b))
    decreases BITS - b
  {
    if b < BITS && !Bit(I, b) {
      TrailingZerosBits(I, b + 1);
    }
  }

  class Store {
    const h: Hash
    const secrets: array<Item>

    ghost predicate Valid()
      reads this
    {
      secrets.Length == BITS + 1
    }

    ghost function Contents(): Slots
      reads this, secrets
      requires Valid()
    {
      secrets[..]
    }

    constructor (h: Hash)
      ensures Valid() && fresh(secrets) && this.h == h && Contents() == Empty()
    {
      this.h := h;
      secrets := new Item[BITS + 1](_ => Item(0, None));
      new;
      assert secrets[..] == Empty();
    }

    static method CalcIndex(I: nat) returns (r: nat)
      ensures r == TrailingZeros(I)
    {
      for i := 0 to BITS
        invariant TrailingZeros(I) == TrailingZerosFrom(I, i)
      {
        if Bit(I, i) { return i; }
      }
      return BITS;
    }

    method Check(secret: Secret, B: nat) returns (ok: bool)
      requires Valid() && B <= BITS
      ensures ok == Accepts(h, Contents(), secret, B, B)
    {
      ghost var slots := Contents();
      for b := 0 to B
        invariant Accepts(h, slots, secret, B, b)
      {
        var item := secrets[b];
        var derived := DeriveSecret(h, secret, item.index, B);
        if item.secret != Some(derived) {
          assert item == slots[b];
          return false;
        }
      }
      return true;
    }

    method InsertSecret(secret: Secret, i: nat) returns (r: Result<(), Error>)
      requires Valid()
      modifies secrets
      ensures match Insert(h, old(Contents()), secret, i)
              case Ok(slots) => r == Ok(()) && Contents() == slots
              case Err(e) => r == Err(e) && Contents() == old(Contents())
    {
      var B := CalcIndex(i);
      var ok := Check(secret, B);
      if !ok { return Err(IncorrectSecret); }
      secrets[B] := Item(i, Some(secret));
      return Ok(());
    }

    method DeriveIndex(i: nat) returns (r: Result<Secret, Error>)
      requires Valid()
      ensures r == Lookup(h, Contents(), i)
    {
      for b := 0 to secrets.Length
        invariant Lookup(h, Contents(), i) == LookupFrom(h, Contents(), i, b)
      {
        var mask := Shl(Shr(ALL_BITS, b), b);
        if And(i, mask) == secrets[b].index && secrets[b].secret.Some? {
          var derived := DeriveSecret(h, secrets[b].secret.value, i, b);
          return Ok(derived);
        }
      }
      return Err(NotReceived);
    }
  }

  // ---------------------------------------------------------------- bit facts

  /** The number of commitment indices. */
  const SPACE: nat := 0x1_0000_0000_0000

  lemma Square(n: nat, v: nat)
    requires Pow2(n) == v
    ensures Pow2(2 * n) == v * v
  {
    PowAdd(2, n, n);
  }

  lemma SpaceIsPow2(n: nat)
    requires n == BITS
    ensures SPACE == Pow2(n)
  {
    assert Pow2(8) == 0x100;
    hide Pow;
    Square(8, 0x100);
    Square(16, 0x1_0000);
    PowAdd(2, 32, 16);
  }

  /** `v` has exactly `b` trailing zeros, among 48 bits. */
  predicate Zeros(v: nat, b: nat) {
    if b < BITS then v % Pow2(b + 1) == Pow2(b) else v == 0
  }

  lemma ModStep(i: nat, b: nat)
    ensures i % Pow2(b + 1) == i % Pow2(b) + (if Bit(i, b) then Pow2(b) else 0)
  {
    var d := Pow2(b);
    BitIsDigit(i, b);
    assert Pow2(b + 1) == 2 * d;
    ModDouble(i, d);
  }

  lemma ModDouble(i: nat, d: nat)
    requires d > 0
    ensures i % (2 * d) == i % d + (if (i / d) % 2 == 1 then d else 0)
  {
    var q := i / d;
    var r := i % d + (if q % 2 == 1 then d else 0);
    assert i == q * d + i % d;
    assert q * d == (q / 2) * (2 * d) + (q % 2) * d by {
      MulAssoc(q / 2, 2, d);
      assert q == (q / 2) * 2 + q % 2;
      assert ((q / 2) * 2 + q % 2) * d == ((q / 2) * 2) * d + (q % 2) * d;
    }
    assert i == (q / 2) * (2 * d) + r;
    DivUnique(i, 2 * d, q / 2);
  }

  lemma {:induction false} LowZeros(i: nat, b: nat)
    ensures i % Pow2(b) == 0 <==> forall c | 0 <= c < b :: !Bit(i, c)
  {
    if b > 0 {
      LowZeros(i, b - 1);
      ModStep(i, b - 1);
    }
  }

  lemma ZerosBits(i: nat, b: nat)
    requires i < SPACE && b <= BITS
    ensures Zeros(i, b) <==> (b < BITS ==> Bit(i, b)) && forall c | 0 <= c < b :: !Bit(i, c)
  {
    LowZeros(i, b);
    if b < BITS {
      ModStep(i, b);
    } else {
      SpaceIsPow2(b);
      DivUnique(i, SPACE, 0);
    }
  }

  lemma TrailingZerosExact(i: nat, b: nat)
    requires i < SPACE && b <= BITS
    ensures TrailingZeros(i) == b <==> Zeros(i, b)
  {
    TrailingZerosBits(i, 0);
    ZerosBits(i, b);
  }
}
