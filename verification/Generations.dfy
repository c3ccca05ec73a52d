/** 16-bit slot generations, as capabilities, tasks, shared buffers and memory blocks count them. */
module Generations {
  import opened Words

  /** The successor of a generation; zero is skipped. */
  function NextGeneration(g: nat): nat {
    var n := (g + 1) % TWO16;
    if n == 0 then 1 else n
  }

  /** The generation of a slot after k releases since init. */
  function Generation(k: nat): (g: nat)
    ensures 1 <= g < TWO16
  {
    1 + k % 65535
  }

  lemma NextIsGeneration(k: nat)
    ensures NextGeneration(Generation(k)) == Generation(k + 1)
  {
  }

  /** The generation n releases after g. */
  function After(g: nat, n: nat): nat
    decreases n
  {
    if n == 0 then g else After(NextGeneration(g), n - 1)
  }

  /** Counting on from k releases: the counter skips zero and runs through 65535 values. */
  lemma {:induction false} AfterCounts(k: nat, n: nat)
    ensures After(Generation(k), n) == Generation(k + n)
    decreases n
  {
    if n > 0 {
      NextIsGeneration(k);
      AfterCounts(k + 1, n - 1);
    }
  }

  lemma RepeatsModulo(k: nat, n: nat)
    ensures (k + n) % 65535 == k % 65535 <==> n % 65535 == 0
  {
  }

  /** A generation comes back after exactly a multiple of 65535 releases. */
  lemma GenerationRepeats(k: nat, n: nat)
    ensures Generation(k + n) == Generation(k) <==> n % 65535 == 0
  {
    RepeatsModulo(k, n);
  }

  lemma SmallMultiple(n: nat)
    ensures 0 < n < 65535 ==> n % 65535 != 0
  {
  }

  /** The handle layout: generation in the high half, slot + 1 in the low half. */
  function Handle(slot: nat, generation: nat): (h: nat)
    requires slot + 1 < TWO16
    ensures h % TWO16 == slot + 1 && h / TWO16 == generation && h != 0
  {
    generation * TWO16 + slot + 1
  }

  datatype Decoded = Bad | Good(slot: nat, generation: nat)

  /** decode_handle over a table of the given size. */
  function Decode(h: u32, size: nat): Decoded {
    if h == 0 || h % TWO16 == 0 || h % TWO16 - 1 >= size then Bad
    else Good(h % TWO16 - 1, h / TWO16)
  }

  /** Encoding and decoding undo each other. */
  lemma HandleRoundTrip(slot: nat, generation: nat, size: nat, h: u32)
    requires slot < size < TWO16 && generation < TWO16
    ensures Handle(slot, generation) < TWO32 && Decode(Handle(slot, generation), size) == Good(slot, generation)
    ensures Decode(h, size).Good? ==> h == Handle(Decode(h, size).slot, Decode(h, size).generation)
    ensures Handle(slot, generation) == h <==> Decode(h, size) == Good(slot, generation)
  {
  }
}
