/** What the compact store guarantees over every run of descending inserts. */
module CommitmentSecretRuns {
  import opened Wrappers
  import opened Numbers
  import opened Bits
  import opened CommitmentSecret
  import opened CommitmentSecretStore

  /** The secrets received so far, for indices 2^48 - 1, 2^48 - 2, and so on down. */
  type Received = s: seq<Secret> | |s| <= SPACE witness []

  /** The lowest index received. */
  function Lowest(received: Received): nat {
    SPACE - |received|
  }

  /** The plain map that the store replaces. */
  function At(received: Received, j: nat): Secret
    requires Lowest(received) <= j < SPACE
  {
    received[SPACE - 1 - j]
  }

  /** A run of inserts in descending order, stopped by the first one that throws. */
  function Run(h: Hash, received: Received): Result<Slots, Error>
    decreases |received|
  {
    if received == [] then Ok(Empty())
    else
      match Run(h, received[..|received| - 1])
      case Err(e) => Err(e)
      case Ok(slots) => Insert(h, slots, received[|received| - 1], Lowest(received))
  }

  // ---------------------------------------------------------------- representation invariant

  /** Slot `b` holds the lowest received index with exactly `b` trailing zeros, if there is one. */
  predicate HoldsLowest(item: Item, b: nat, low: nat) {
    match item.secret
    case Some(_) => low <= item.index < SPACE && item.index < low + 2 * Pow2(b) && Zeros(item.index, b)
    case None => item.index == 0 && low + Pow2(b) > SPACE
  }

  /** The secret of slot `b` derives every received secret of the block it stands for. */
  ghost predicate DerivesBlock(h: Hash, item: Item, b: nat, received: Received) {
    item.secret.Some? ==>
      forall j | item.index <= j < item.index + Pow2(b) && Lowest(received) <= j < SPACE ::
        Derive(h, item.secret.value, j, b) == At(received, j)
  }

  ghost predicate Represents(h: Hash, slots: Slots, received: Received) {
    forall b | 0 <= b <= BITS ::
      HoldsLowest(slots[b], b, Lowest(received)) && DerivesBlock(h, slots[b], b, received)
  }

  // ---------------------------------------------------------------- index arithmetic

  /** `j` with its low `b` bits cleared. */
  function Trunc(j: nat, b: nat): nat {
    MulPositive(j / Pow2(b), Pow2(b));
    (j / Pow2(b)) * Pow2(b)
  }

  lemma ModOfMultiple(q: nat, d: nat)
    requires d > 0
    ensures (q * d) % d == 0
  {
    MulPositive(q, d);
    DivUnique(q * d, d, q);
  }

  lemma TruncBlock(j: nat, b: nat)
    ensures InBlock(Trunc(j, b), b, j)
    ensures forall v: nat {:trigger InBlock(v, b, j)} | InBlock(v, b, j) :: v == Trunc(j, b)
  {
    var d := Pow2(b);
    ModOfMultiple(j / d, d);
    DivUnique(j, d, j / d);
    forall v: nat {:trigger InBlock(v, b, j)} | InBlock(v, b, j)
      ensures v == Trunc(j, b)
    {
      assert v == (v / d) * d;
      DivUnique(j, d, v / d);
    }
  }

  lemma TruncStep(j: nat, b: nat)
    ensures Trunc(j, b) == Trunc(j, b + 1) + (if Bit(j, b) then Pow2(b) else 0)
  {
    ModStep(j, b);
    assert j == Trunc(j, b) + j % Pow2(b);
    assert j == Trunc(j, b + 1) + j % Pow2(b + 1);
  }

  lemma TruncZeros(j: nat, b: nat)
    requires b < BITS && Bit(j, b)
    ensures Zeros(Trunc(j, b), b)
  {
    var d := Pow2(b + 1);
    TruncStep(j, b);
    assert Trunc(j, b) == (j / d) * d + Pow2(b);
    DivUnique(Trunc(j, b), d, j / d);
  }

  lemma AllBitsShifted(b: nat)
    requires b <= BITS
    ensures SPACE == Pow2(BITS - b) * Pow2(b)
    ensures Shr(ALL_BITS, b) == Pow2(BITS - b) - 1
  {
    var m, d := Pow2(BITS - b), Pow2(b);
    SpaceIsPow2(BITS - b + b);
    PowAdd(2, BITS - b, b);
    assert (m - 1) * d == m * d - d;
    DivUnique(ALL_BITS, d, m - 1);
  }

  lemma ShrBound(j: nat, b: nat)
    requires j < SPACE && b <= BITS
    ensures Shr(j, b) < Pow2(BITS - b)
  {
    var m, d := Pow2(BITS - b), Pow2(b);
    AllBitsShifted(b);
    DivUnique(j, d, j / d);
    if m <= j / d { MulMono(m, j / d, d); }
  }

  lemma MaskTruncates(j: nat, b: nat)
    requires j < SPACE && b <= BITS
    ensures And(j, Mask(b)) == Trunc(j, b)
  {
    hide And;
    var m := Pow2(BITS - b);
    AllBitsShifted(b);
    AndShifted(j, m - 1, b);
    AndLowMask(Shr(j, b), BITS - b);
    ShrBound(j, b);
    DivUnique(Shr(j, b), m, 0);
  }

  /** Two indices with exactly `b` trailing zeros that are closer than `2^(b+1)` are equal. */
  lemma ZerosUnique(v: nat, w: nat, b: nat)
    requires b <= BITS && Zeros(v, b) && Zeros(w, b)
    requires v < w + 2 * Pow2(b) && w < v + 2 * Pow2(b)
    ensures v == w
  {
    if b < BITS {
      var d := Pow2(b + 1);
      assert v == (v / d) * d + Pow2(b) && w == (w / d) * d + Pow2(b);
      if v / d < w / d { MulStrict(v / d, w / d, d); }
      if w / d < v / d { MulStrict(w / d, v / d, d); }
    }
  }

  lemma ZerosShift(v: nat, b: nat)
    requires b < BITS
    ensures Zeros(v + 2 * Pow2(b), b) <==> Zeros(v, b)
  {
    var d := Pow2(b + 1);
    assert v + d == (v / d + 1) * d + v % d;
    DivUnique(v + d, d, v / d + 1);
  }

  // ---------------------------------------------------------------- lookup

  lemma {:induction false} LookupFromFinds(h: Hash, slots: Slots, j: nat, b: nat, c: nat)
    requires b <= c <= BITS && CanDerive(slots[c], c, j)
    ensures exists d | b <= d <= c ::
      CanDerive(slots[d], d, j) && LookupFrom(h, slots, j, b) == Ok(Derive(h, slots[d].secret.value, j, d))
    decreases c - b
  {
    if !CanDerive(slots[b], b, j) {
      LookupFromFinds(h, slots, j, b + 1, c);
    }
  }

  lemma {:induction false} LookupFromFails(h: Hash, slots: Slots, j: nat, b: nat)
    requires b <= BITS + 1
    requires forall c | b <= c <= BITS :: !CanDerive(slots[c], c, j)
    ensures LookupFrom(h, slots, j, b) == Err(NotReceived)
    decreases BITS + 1 - b
  {
    if b <= BITS {
      LookupFromFails(h, slots, j, b + 1);
    }
  }

  /** Whichever slot answers first, its answer is the received secret. */
  lemma AnswerIsReceived(h: Hash, slots: Slots, received: Received, j: nat, c: nat)
    requires Represents(h, slots, received)
    requires j < SPACE && c <= BITS && CanDerive(slots[c], c, j)
    ensures j >= Lowest(received)
    ensures Derive(h, slots[c].secret.value, j, c) == At(received, j)
  {
    MaskTruncates(j, c);
    TruncBlock(j, c);
    assert HoldsLowest(slots[c], c, Lowest(received)) && DerivesBlock(h, slots[c], c, received);
  }

  /** The largest received block around `j` is the one its slot stands for. */
  lemma LastBlock(item: Item, low: nat, j: nat, b: nat)
    requires j < SPACE && b < BITS && HoldsLowest(item, b, low)
    requires Trunc(j, b + 1) < low <= Trunc(j, b)
    ensures CanDerive(item, b, j)
  {
    var t := Trunc(j, b);
    TruncStep(j, b);
    TruncZeros(j, b);
    TruncBlock(j, b);
    TopOfSpace(t, b);
    ZerosUnique(t, item.index, b);
    MaskTruncates(j, b);
  }

  /** Some slot answers for every received index. */
  lemma {:induction false} SomeSlotAnswers(h: Hash, slots: Slots, received: Received, j: nat, b: nat)
    returns (c: nat)
    requires Represents(h, slots, received)
    requires j < SPACE && b <= BITS && Trunc(j, b) >= Lowest(received)
    ensures b <= c <= BITS && CanDerive(slots[c], c, j)
    decreases BITS - b
  {
    c := b;
    assert HoldsLowest(slots[b], b, Lowest(received));
    if b == BITS {
      MaskTruncates(j, b);
      SpaceIsPow2(b);
      DivUnique(j, SPACE, 0);
    } else if Trunc(j, b + 1) >= Lowest(received) {
      c := SomeSlotAnswers(h, slots, received, j, b + 1);
    } else {
      LastBlock(slots[b], Lowest(received), j, b);
    }
  }

  /** A multiple of `2^b` below 2^48 leaves room for its whole block. */
  lemma TopOfSpace(t: nat, b: nat)
    requires b <= BITS && t < SPACE && t % Pow2(b) == 0
    ensures t + Pow2(b) <= SPACE
  {
    hide Pow;
    var m, d := Pow2(BITS - b), Pow2(b);
    AllBitsShifted(b);
    assert t == (t / d) * d;
    if m <= t / d { MulMono(m, t / d, d); }
    MulMono(t / d + 1, m, d);
    assert (t / d + 1) * d == (t / d) * d + d;
  }

  /** The slots refine the plain map: `derive` answers with the received secret for every
      received index and throws for every other one. */
  lemma LookupRefines(h: Hash, slots: Slots, received: Received, j: nat)
    requires Represents(h, slots, received) && j < SPACE
    ensures Lookup(h, slots, j) ==
      if j >= Lowest(received) then Ok(At(received, j)) else Err(NotReceived)
  {
    if j >= Lowest(received) {
      assert j / 1 == j;
      var c := SomeSlotAnswers(h, slots, received, j, 0);
      LookupFromFinds(h, slots, j, 0, c);
      var d :| 0 <= d <= c && CanDerive(slots[d], d, j) &&
        Lookup(h, slots, j) == Ok(Derive(h, slots[d].secret.value, j, d));
      AnswerIsReceived(h, slots, received, j, d);
    } else {
      forall c | 0 <= c <= BITS
        ensures !CanDerive(slots[c], c, j)
      {
        if CanDerive(slots[c], c, j) { AnswerIsReceived(h, slots, received, j, c); }
      }
      LookupFromFails(h, slots, j, 0);
    }
  }

  // ---------------------------------------------------------------- insert

  lemma LowerIndex(i: nat, b: nat)
    requires i < SPACE && b < TrailingZeros(i)
    ensures i + 2 * Pow2(b) <= SPACE
    ensures Zeros(i + Pow2(b), b)
  {
    var h := Pow2(b);
    TrailingZerosBits(i, 0);
    LowZeros(i, b + 1);
    TopOfSpace(i, b + 1);
    assert Pow2(b + 1) == 2 * h;
    ModOffset(i, h, 2 * h);
  }

  lemma ModOffset(i: nat, r: nat, d: nat)
    requires r < d && i % d == 0
    ensures (i + r) % d == r
  {
    DivUnique(i + r, d, i / d);
  }

  /** A slot's secret is the received secret of its own index. */
  lemma OwnSecret(h: Hash, item: Item, b: nat, received: Received)
    requires b <= BITS && item.secret.Some?
    requires HoldsLowest(item, b, Lowest(received)) && DerivesBlock(h, item, b, received)
    ensures item.secret.value == At(received, item.index)
  {
    var v := item.index;
    ZerosBits(v, b);
    WalkOverZeros(h, item.secret.value, v, b);
    assert v <= v < v + Pow2(b);
  }

  /** Below the new index's own slot, slot `b` holds exactly the secret of `i + 2^b`. */
  lemma LowerSlot(h: Hash, slots: Slots, received: Received, b: nat)
    requires Represents(h, slots, received) && |received| < SPACE
    requires b < TrailingZeros(Lowest(received) - 1)
    ensures var i := Lowest(received) - 1;
      i + Pow2(b) < SPACE && slots[b] == Item(i + Pow2(b), Some(At(received, i + Pow2(b))))
  {
    var i := Lowest(received) - 1;
    assert HoldsLowest(slots[b], b, i + 1);
    LowerIndex(i, b);
    ZerosUnique(i + Pow2(b), slots[b].index, b);
    OwnSecret(h, slots[b], b, received);
  }

  lemma HalfBlock(i: nat, d: nat)
    requires d > 0 && i % (2 * d) == 0
    ensures i % d == 0 && (i + d) % d == 0
  {
    var q := i / (2 * d);
    MulAssoc(q, 2, d);
    DivUnique(i, d, q * 2);
    DivUnique(i + d, d, q * 2 + 1);
    assert (q * 2 + 1) * d == (q * 2) * d + d;
  }

  /** Every index of a block other than its first lies in the upper half of one sub-block. */
  lemma {:induction false} SubBlock(i: nat, j: nat, B: nat) returns (b: nat)
    requires i % Pow2(B) == 0 && i < j < i + Pow2(B)
    ensures b < B && InBlock(i + Pow2(b), b, j)
  {
    var d := Pow2(B - 1);
    assert Pow2(B) == 2 * d;
    HalfBlock(i, d);
    if i + d <= j {
      b := B - 1;
    } else {
      b := SubBlock(i, j, B - 1);
    }
  }

  /** The check of `insert` is complete: a secret is accepted exactly when it derives every
      received secret of its block, not only the ones the slots still hold. */
  lemma AcceptsExactly(h: Hash, slots: Slots, received: Received, secret: Secret)
    requires Represents(h, slots, received) && |received| < SPACE
    ensures var i := Lowest(received) - 1;
      var B := TrailingZeros(i);
      Insert(h, slots, secret, i).Ok? <==>
        forall j | i < j < i + Pow2(B) && j < SPACE :: Derive(h, secret, j, B) == At(received, j)
  {
    var i := Lowest(received) - 1;
    var B := TrailingZeros(i);
    if Insert(h, slots, secret, i).Ok? {
      forall j | i < j < i + Pow2(B) && j < SPACE
        ensures Derive(h, secret, j, B) == At(received, j)
      {
        AcceptedDerives(h, slots, received, secret, j);
      }
    }
    if forall j | i < j < i + Pow2(B) && j < SPACE :: Derive(h, secret, j, B) == At(received, j) {
      forall b | 0 <= b < B
        ensures Matches(h, slots[b], secret, B)
      {
        LowerSlot(h, slots, received, b);
        PowMonotone(b, B);
        assert i < i + Pow2(b) < i + Pow2(B);
      }
    }
  }

  lemma {:induction false} PowMonotone(b: nat, c: nat)
    requires b < c
    ensures Pow2(b) < Pow2(c)
  {
    if b + 1 < c { PowMonotone(b, c - 1); }
  }

  lemma AcceptedDerives(h: Hash, slots: Slots, received: Received, secret: Secret, j: nat)
    requires Represents(h, slots, received) && |received| < SPACE
    requires Insert(h, slots, secret, Lowest(received) - 1).Ok?
    requires var i := Lowest(received) - 1; i < j < i + Pow2(TrailingZeros(i)) && j < SPACE
    ensures Derive(h, secret, j, TrailingZeros(Lowest(received) - 1)) == At(received, j)
  {
    hide Pow2, Bit, Walk, HoldsLowest, TrailingZerosFrom;
    var i := Lowest(received) - 1;
    var B := TrailingZeros(i);
    TrailingZerosBits(i, 0);
    LowZeros(i, B);
    var b := SubBlock(i, j, B);
    LowerSlot(h, slots, received, b);
    var item := slots[b];
    assert Matches(h, item, secret, B);
    DeriveThroughPrefix(h, secret, item.index, j, B, b);
    assert DerivesBlock(h, item, b, received);
  }

  /** A slot that the insert leaves alone still holds the lowest index of its kind. */
  lemma OtherSlotKept(item: Item, b: nat, low: nat)
    requires b <= BITS && 0 < low <= SPACE && HoldsLowest(item, b, low)
    requires TrailingZeros(low - 1) != b
    ensures HoldsLowest(item, b, low - 1)
  {
    var i := low - 1;
    TrailingZerosExact(i, b);
    if b < BITS {
      if item.secret.Some? && item.index == i + 2 * Pow2(b) {
        ZerosShift(i, b);
      }
      if i + Pow2(b) == SPACE {
        TopIndexZeros(b);
      }
    } else {
      SpaceIsPow2(b);
    }
  }

  lemma TopIndexZeros(b: nat)
    requires b < BITS
    ensures SPACE >= Pow2(b) && Zeros(SPACE - Pow2(b), b)
  {
    var m, h := Pow2(BITS - b - 1), Pow2(b);
    AllBitsShifted(b + 1);
    assert Pow2(b + 1) == 2 * h;
    HalfFromTop(SPACE, m, h);
  }

  lemma HalfFromTop(x: nat, m: nat, h: nat)
    requires m > 0 && h > 0 && x == m * (2 * h)
    ensures x >= h && (x - h) % (2 * h) == h
  {
    assert m * (2 * h) == (m - 1) * (2 * h) + 2 * h;
    MulPositive(m - 1, 2 * h);
    DivUnique(x - h, 2 * h, m - 1);
  }

  /** An accepted insert keeps the slots a representation of all the secrets received. */
  lemma InsertRefines(h: Hash, slots: Slots, received: Received, secret: Secret)
    requires Represents(h, slots, received) && |received| < SPACE
    requires Insert(h, slots, secret, Lowest(received) - 1).Ok?
    ensures Represents(h, Insert(h, slots, secret, Lowest(received) - 1).value, received + [secret])
  {
    var i := Lowest(received) - 1;
    var B := TrailingZeros(i);
    var longer: Received := received + [secret];
    var next := Insert(h, slots, secret, i).value;
    forall b | 0 <= b <= BITS
      ensures HoldsLowest(next[b], b, i) && DerivesBlock(h, next[b], b, longer)
    {
      assert HoldsLowest(slots[b], b, i + 1) && DerivesBlock(h, slots[b], b, received);
      if b == B {
        TrailingZerosExact(i, b);
        NewSlotDerives(h, slots, received, secret);
      } else {
        OtherSlotKept(slots[b], b, i + 1);
        OldSlotDerives(h, slots[b], b, received, secret);
      }
    }
  }

  lemma OldSlotDerives(h: Hash, item: Item, b: nat, received: Received, secret: Secret)
    requires b <= BITS && |received| < SPACE
    requires HoldsLowest(item, b, Lowest(received)) && DerivesBlock(h, item, b, received)
    ensures DerivesBlock(h, item, b, received + [secret])
  {
    var longer: Received := received + [secret];
    forall j | Lowest(received) <= j < SPACE
      ensures At(longer, j) == At(received, j)
    {}
  }

  lemma NewSlotDerives(h: Hash, slots: Slots, received: Received, secret: Secret)
    requires Represents(h, slots, received) && |received| < SPACE
    requires Insert(h, slots, secret, Lowest(received) - 1).Ok?
    ensures var i := Lowest(received) - 1;
      DerivesBlock(h, Item(i, Some(secret)), TrailingZeros(i), received + [secret])
  {
    var i := Lowest(received) - 1;
    var B := TrailingZeros(i);
    var longer: Received := received + [secret];
    forall j | i <= j < i + Pow2(B) && j < SPACE
      ensures Derive(h, secret, j, B) == At(longer, j)
    {
      if j == i {
        TrailingZerosBits(i, 0);
        WalkOverZeros(h, secret, i, B);
      } else {
        AcceptedDerives(h, slots, received, secret, j);
      }
    }
  }

  // ---------------------------------------------------------------- runs

  lemma {:induction false} RunRepresents(h: Hash, received: Received)
    requires Run(h, received).Ok?
    ensures Represents(h, Run(h, received).value, received)
    decreases |received|
  {
    if received == [] {
      forall b | 0 <= b <= BITS
        ensures HoldsLowest(Empty()[b], b, SPACE)
      {}
    } else {
      var before: Received := received[..|received| - 1];
      RunRepresents(h, before);
      InsertRefines(h, Run(h, before).value, before, received[|received| - 1]);
      assert before + [received[|received| - 1]] == received;
    }
  }

  /** Whatever secrets the counterparty sent, honest or not: if no insert threw, `derive`
      returns exactly the secret received for every received index and throws for the others. */
  lemma StoreRefinesMap(h: Hash, received: Received, j: nat)
    requires Run(h, received).Ok? && j < SPACE
    ensures Lookup(h, Run(h, received).value, j) ==
      if j >= Lowest(received) then Ok(At(received, j)) else Err(NotReceived)
  {
    RunRepresents(h, received);
    LookupRefines(h, Run(h, received).value, received, j);
  }

  /** The slot of each depth holds the lowest received index with that many trailing zeros. */
  lemma SlotHoldsLowest(h: Hash, received: Received, b: nat, v: nat)
    requires Run(h, received).Ok? && b <= BITS
    requires Lowest(received) <= v < SPACE && Zeros(v, b)
    ensures var item := Run(h, received).value[b];
      Lowest(received) <= item.index <= v && Zeros(item.index, b) &&
      item.secret == Some(At(received, item.index))
  {
    RunRepresents(h, received);
    var item := Run(h, received).value[b];
    assert HoldsLowest(item, b, Lowest(received)) && DerivesBlock(h, item, b, received);
    ZerosBits(v, b);
    LowZeros(v, b);
    TopOfSpace(v, b);
    OwnSecret(h, item, b, received);
    if v < item.index { ZerosUnique(v, item.index, b); }
  }

  ghost predicate Honest(h: Hash, seed: Secret, received: Received) {
    forall j | Lowest(received) <= j < SPACE :: At(received, j) == Derive(h, seed, j, BITS)
  }

  /** Secrets generated from one seed are never refused. */
  lemma {:induction false} HonestRunAccepted(h: Hash, seed: Secret, received: Received)
    requires Honest(h, seed, received)
    ensures Run(h, received).Ok?
    decreases |received|
  {
    if received != [] {
      var before: Received := received[..|received| - 1];
      var secret := received[|received| - 1];
      var i := Lowest(received);
      forall j | Lowest(before) <= j < SPACE
        ensures At(before, j) == Derive(h, seed, j, BITS)
      {
        assert At(before, j) == At(received, j);
      }
      HonestRunAccepted(h, seed, before);
      RunRepresents(h, before);
      assert secret == At(received, i);
      HonestDerives(h, seed, before, i);
      AcceptsExactly(h, Run(h, before).value, before, secret);
    }
  }

  lemma HonestDerives(h: Hash, seed: Secret, before: Received, i: nat)
    requires Honest(h, seed, before) && |before| < SPACE && i == Lowest(before) - 1
    ensures var B := TrailingZeros(i);
      forall j | i < j < i + Pow2(B) && j < SPACE ::
        Derive(h, Derive(h, seed, i, BITS), j, B) == At(before, j)
  {
    var B := TrailingZeros(i);
    TrailingZerosBits(i, 0);
    LowZeros(i, B);
    forall j | i < j < i + Pow2(B) && j < SPACE
      ensures Derive(h, Derive(h, seed, i, BITS), j, B) == At(before, j)
    {
      DeriveThroughPrefix(h, seed, i, j, BITS, B);
    }
  }

  /** After an honest run the store answers with the seed's own derivation for every received
      index and throws for every index not yet received. */
  lemma HonestLookup(h: Hash, seed: Secret, received: Received, j: nat)
    requires Honest(h, seed, received) && j < SPACE
    ensures Run(h, received).Ok?
    ensures Lookup(h, Run(h, received).value, j) ==
      if j >= Lowest(received) then Ok(Derive(h, seed, j, BITS)) else Err(NotReceived)
  {
    HonestRunAccepted(h, seed, received);
    StoreRefinesMap(h, received, j);
  }
}
