/** The prefix lengths a heavy-hitter detector is configured with, and their address masks. */
module Prefixes {

  /** An address, an address prefix or an address mask, in network byte order. */
  datatype Word = Word(bits: bv32)

  function And(a: Word, b: Word): (r: Word) { Word(a.bits & b.bits) }

  /** Converts between host and network byte order. */
  function Swap(n: bv32): (r: bv32) {
    ((n >> 24) & 0xff) | ((n >> 8) & 0xff00) | ((n << 8) & 0xff_0000) | ((n << 24) & 0xff00_0000)
  }

  /** The four bytes of a word change places. */
  lemma {:induction false} SwapBytes(a: bv32, b: bv32, c: bv32, d: bv32)
    requires a <= 0xff && b <= 0xff && c <= 0xff && d <= 0xff
    ensures Swap((a << 24) | (b << 16) | (c << 8) | d) == (d << 24) | (c << 16) | (b << 8) | a
  {
  }

  lemma {:induction false} SwapDistributes(a: bv32, b: bv32)
    ensures Swap(a & b) == Swap(a) & Swap(b)
  {
  }

  /** The mask one bit longer. */
  function Longer(mask: bv32): (r: bv32) {
    (mask >> 1) | 0x8000_0000
  }

  /** The mask of the prefix length, as repeated lengthening gives it. */
  function MaskOf(length: nat): (mask: bv32) {
    if length == 0 then 0 else Longer(MaskOf(length - 1))
  }

  /** `a` masks no bit that `b` does not. */
  predicate Within(a: bv32, b: bv32) { a & b == a }

  lemma {:induction false} WithinLonger(mask: bv32)
    requires Within(mask, Longer(mask))
    ensures Within(Longer(mask), Longer(Longer(mask)))
  {
  }

  lemma {:induction false} MasksGrowByOne(length: nat)
    ensures Within(MaskOf(length), MaskOf(length + 1))
  {
    if length > 0 {
      MasksGrowByOne(length - 1);
      WithinLonger(MaskOf(length - 1));
    }
  }

  /** A shorter prefix masks no bit that a longer one does not. */
  lemma {:induction false} MasksGrow(a: nat, b: nat)
    requires a <= b
    ensures Within(MaskOf(a), MaskOf(b))
  {
    if a < b {
      MasksGrow(a, b - 1);
      MasksGrowByOne(b - 1);
      WithinTrans(MaskOf(a), MaskOf(b - 1), MaskOf(b));
    }
  }

  lemma {:induction false} WithinTrans(a: bv32, b: bv32, c: bv32)
    requires Within(a, b) && Within(b, c)
    ensures Within(a, c)
  {
  }

  /** The lowest `n` bits. */
  function Ones(n: nat): (r: bv32) {
    if n == 0 then 0 else More(Ones(n - 1))
  }

  function More(ones: bv32): (r: bv32) { (ones << 1) | 1 }

  lemma {:induction false} WithinMore(ones: bv32)
    requires Within(ones, More(ones))
    ensures Within(More(ones), More(More(ones)))
  {
  }

  lemma {:induction false} OnesGrow(a: nat, b: nat)
    requires a <= b
    ensures Within(Ones(a), Ones(b)) && Within(Ones(b), Ones(b + 1))
  {
    if a < b {
      OnesGrow(a, b - 1);
      WithinTrans(Ones(a), Ones(b - 1), Ones(b));
      WithinMore(Ones(b - 1));
    } else if b > 0 {
      OnesGrow(b - 1, b - 1);
      WithinMore(Ones(b - 1));
    }
  }

  lemma {:induction false} FourMore(n: nat, ones: bv32)
    requires Ones(n) == ones
    ensures Ones(n + 4) == (ones << 4) | 0xf
  {
    assert Ones(n + 1) == More(ones) && Ones(n + 2) == More(More(ones)) && Ones(n + 3) == More(More(More(ones)));
  }

  lemma {:induction false} AllButTheTop(n: nat)
    requires n == 31
    ensures Ones(n) == 0x7fff_ffff
  {
    assert Ones(n - 31) == 0 && Ones(n - 30) == 1 && Ones(n - 29) == 3 && Ones(n - 28) == 7;
    FourMore(n - 28, 7);
    FourMore(n - 24, 0x7f);
    FourMore(n - 20, 0x7ff);
    FourMore(n - 16, 0x7fff);
    FourMore(n - 12, 0x7_ffff);
    FourMore(n - 8, 0x7f_ffff);
    FourMore(n - 4, 0x7ff_ffff);
  }

  lemma {:induction false} LongerIsFewerOnes(ones: bv32)
    requires Within(ones, 0x7fff_ffff)
    ensures Longer(!More(ones)) == !ones
  {
  }

  /** The mask of a prefix length has all bits but the lowest `32 - length`. */
  lemma {:induction false} MaskIsPrefix(length: nat)
    requires length <= WIDTH
    ensures MaskOf(length) == !Ones(WIDTH - length)
  {
    if length == 0 {
      AllButTheTop(31);
      assert Ones(32) == More(Ones(31));
    } else {
      MaskIsPrefix(length - 1);
      AllButTheTop(31);
      OnesGrow(WIDTH - length, 31);
      LongerIsFewerOnes(Ones(WIDTH - length));
    }
  }

  function Half(x: bv32): (r: bv32) { x >> 1 }

  predicate Odd(x: bv32) { x & 1 == 1 }

  /** The configuration word, shifted right once for every prefix length passed. */
  function Shifted(subnets: bv32, b: nat): (r: bv32) {
    if b == 0 then subnets else Half(Shifted(subnets, b - 1))
  }

  /** Bit `b` of the configuration word asks for prefixes of length `b + 1`. */
  predicate Asked(subnets: bv32, b: nat) { Odd(Shifted(subnets, b)) }

  /** Bit `b` alone. */
  function SingleBit(b: nat): (r: bv32) {
    if b == 0 then 1 else Doubled(SingleBit(b - 1))
  }

  function Doubled(x: bv32): (r: bv32) { x << 1 }

  lemma {:induction false} DoubledIsMore(bit: bv32, ones: bv32)
    requires Within(bit, ones)
    ensures Within(Doubled(bit), More(ones))
  {
  }

  lemma {:induction false} SingleBitWithin(b: nat)
    ensures Within(SingleBit(b), Ones(b + 1))
  {
    if b == 0 {
      assert Ones(1) == More(Ones(0)) == 1;
    } else {
      SingleBitWithin(b - 1);
      DoubledIsMore(SingleBit(b - 1), Ones(b));
    }
  }

  ghost predicate Meet(x: bv32, y: bv32) { x & y != 0 }

  lemma {:induction false} HalfMeets(x: bv32, bit: bv32)
    requires Within(bit, 0x7fff_ffff)
    ensures Meet(Half(x), bit) <==> Meet(x, Doubled(bit))
  {
  }

  lemma {:induction false} OddMeets(x: bv32)
    ensures Odd(x) <==> Meet(x, 1)
  {
  }

  lemma {:induction false} ShiftedMeets(subnets: bv32, b: nat, k: nat)
    requires k <= b < WIDTH
    ensures Meet(Shifted(subnets, k), SingleBit(b - k)) <==> Meet(subnets, SingleBit(b))
  {
    if k > 0 {
      ShiftedMeets(subnets, b, k - 1);
      SingleBitWithin(b - k);
      AllButTheTop(31);
      OnesGrow(b - k + 1, 31);
      WithinTrans(SingleBit(b - k), Ones(b - k + 1), Ones(31));
      HalfMeets(Shifted(subnets, k - 1), SingleBit(b - k));
    }
  }

  /** A prefix length is asked for exactly when its bit is set in the configuration word. */
  lemma {:induction false} AskedIsBit(subnets: bv32, b: nat)
    requires b < WIDTH
    ensures Asked(subnets, b) <==> subnets & SingleBit(b) != 0
  {
    ShiftedMeets(subnets, b, b);
    OddMeets(Shifted(subnets, b));
  }

  function NetOf(length: nat): (net: Word) { Word(Swap(MaskOf(length))) }

  /** The address masks of the lengths asked for by the lowest `b` bits, shortest first, in network order. */
  function Nets(subnets: bv32, b: nat): (nets: seq<Word>)
    ensures |nets| <= b
  {
    if b == 0 then []
    else if Asked(subnets, b - 1) then Nets(subnets, b - 1) + [NetOf(b)]
    else Nets(subnets, b - 1)
  }

  const WIDTH := 32

  /** The prefix lengths that the lowest `b` bits ask for, shortest first. */
  function LengthsOf(subnets: bv32, b: nat): (lengths: seq<nat>) {
    if b == 0 then []
    else if Asked(subnets, b - 1) then LengthsOf(subnets, b - 1) + [b]
    else LengthsOf(subnets, b - 1)
  }

  /** The lengths that masks stand for. */
  ghost predicate HaveLengths(nets: seq<Word>, lengths: seq<nat>) {
    |lengths| == |nets| && forall i :: 0 <= i < |nets| ==> 0 < lengths[i] <= WIDTH && nets[i] == NetOf(lengths[i])
  }

  /** The masks of a configuration are those of the lengths it asks for. */
  lemma {:induction false} NetsHaveLengths(subnets: bv32, b: nat)
    requires b <= WIDTH
    ensures HaveLengths(Nets(subnets, b), LengthsOf(subnets, b))
  {
    if b > 0 {
      NetsHaveLengths(subnets, b - 1);
    }
  }

  /** A configuration asks for a length exactly when its bit is set (see `AskedIsBit`). */
  lemma {:induction false} LengthsAreAsked(subnets: bv32, b: nat, length: nat)
    requires length > 0
    ensures length in LengthsOf(subnets, b) <==> length <= b && Asked(subnets, length - 1)
  {
    if b > 0 {
      LengthsAreAsked(subnets, b - 1, length);
    }
  }

  /** The masks of a configuration are nested: each level refines the ones before it. */
  ghost predicate Nested(nets: seq<Word>) {
    forall i, j :: 0 <= i < j < |nets| ==> Refines(nets[j], nets[i])
  }

  predicate Refines(b: Word, a: Word) { And(a, b) == a }

  lemma {:induction false} NetIsMask(subnets: bv32, b: nat, i: nat) returns (length: nat)
    requires i < |Nets(subnets, b)|
    ensures 0 < length <= b && Asked(subnets, length - 1) && Nets(subnets, b)[i] == NetOf(length)
  {
    if Asked(subnets, b - 1) && i == |Nets(subnets, b - 1)| {
      length := b;
    } else {
      length := NetIsMask(subnets, b - 1, i);
    }
  }

  lemma {:induction false} LongerRefines(a: nat, b: nat)
    requires a <= b
    ensures Refines(NetOf(b), NetOf(a))
  {
    MasksGrow(a, b);
    SwapDistributes(MaskOf(a), MaskOf(b));
  }

  lemma {:induction false} NetsAreNested(subnets: bv32, b: nat)
    ensures Nested(Nets(subnets, b))
  {
    if b > 0 {
      NetsAreNested(subnets, b - 1);
      var nets := Nets(subnets, b - 1);
      forall i | 0 <= i < |nets|
        ensures Refines(NetOf(b), nets[i])
      {
        var length := NetIsMask(subnets, b - 1, i);
        LongerRefines(length, b);
      }
    }
  }

  lemma {:induction false} NetsGrow(subnets: bv32, a: nat, b: nat)
    requires a <= b
    ensures Nets(subnets, a) <= Nets(subnets, b)
  {
    if a < b {
      NetsGrow(subnets, a, b - 1);
    }
  }

  /** Masking with a longer prefix first makes no difference. */
  lemma {:induction false} PrefixOfPrefix(src: Word, a: Word, b: Word)
    requires Refines(b, a)
    ensures And(And(src, b), a) == And(src, a)
  {
  }

  // ----- What a masked address is

  /** The bits that are left of a word without its lowest ones. */
  function Above(x: bv32, ones: bv32): (r: bv32) { x & !ones }

  // Always true. It keeps bit operations out of sight of the verifier until it is mentioned.
  ghost predicate Show(u: int) { true }

  /** The highest `length` bits of two addresses, in host order, agree. */
  ghost predicate SameStart(a: Word, b: Word, length: nat)
    requires length <= WIDTH
  {
    forall u: int {:trigger Show(u)} :: Show(u) ==>
      Above(Swap(a.bits), Ones(WIDTH - length)) == Above(Swap(b.bits), Ones(WIDTH - length))
  }

  /** Nothing but the highest `length` bits of an address, in host order, is set. */
  ghost predicate OnlyStart(a: Word, length: nat)
    requires length <= WIDTH
  {
    forall u: int {:trigger Show(u)} :: Show(u) ==> Above(Swap(a.bits), Ones(WIDTH - length)) == Swap(a.bits)
  }

  lemma {:induction false} AboveTwice(x: bv32, ones: bv32)
    ensures Above(Above(x, ones), ones) == Above(x, ones)
  {
  }

  /** Masking in network order is masking in host order. */
  lemma {:induction false} SwapMasked(a: bv32, mask: bv32, ones: bv32)
    requires mask == !ones
    ensures Swap(a & Swap(mask)) == Above(Swap(a), ones)
  {
  }

  lemma {:induction false} SwapIsInjective(x: bv32, y: bv32)
    requires Swap(x) == Swap(y)
    ensures x == y
  {
  }

  lemma {:induction false} AlikeFromMasked(a: bv32, b: bv32, mask: bv32, ones: bv32)
    requires mask == !ones && a & Swap(mask) == b & Swap(mask)
    ensures Above(Swap(a), ones) == Above(Swap(b), ones)
  {
    SwapMasked(a, mask, ones);
    SwapMasked(b, mask, ones);
  }

  lemma {:induction false} MaskedFromAlike(a: bv32, b: bv32, mask: bv32, ones: bv32)
    requires mask == !ones && Above(Swap(a), ones) == Above(Swap(b), ones)
    ensures a & Swap(mask) == b & Swap(mask)
  {
    SwapMasked(a, mask, ones);
    SwapMasked(b, mask, ones);
    SwapIsInjective(a & Swap(mask), b & Swap(mask));
  }

  ghost predicate AreOnes(ones: bv32, n: nat) {
    forall u: int {:trigger Show(u)} :: Show(u) ==> ones == Ones(n)
  }

  lemma {:induction false} PrefixMask(length: nat) returns (ones: bv32)
    requires length <= WIDTH
    ensures AreOnes(ones, WIDTH - length) && MaskOf(length) == !ones
  {
    MaskIsPrefix(length);
    ones := Ones(WIDTH - length);
  }

  lemma {:induction false} StartFromMask(a: Word, b: Word, length: nat, mask: bv32, ones: bv32)
    requires length <= WIDTH && AreOnes(ones, WIDTH - length) && mask == !ones
    requires And(a, Word(Swap(mask))) == And(b, Word(Swap(mask)))
    ensures SameStart(a, b, length)
  {
    AlikeFromMasked(a.bits, b.bits, mask, ones);
    StartFromAbove(a, b, length, ones);
  }

  lemma {:induction false} StartFromAbove(a: Word, b: Word, length: nat, ones: bv32)
    requires length <= WIDTH && AreOnes(ones, WIDTH - length)
    requires Above(Swap(a.bits), ones) == Above(Swap(b.bits), ones)
    ensures SameStart(a, b, length)
  {
    assert Show(0);
  }

  lemma {:induction false} MaskFromStart(a: Word, b: Word, length: nat, mask: bv32, ones: bv32)
    requires length <= WIDTH && AreOnes(ones, WIDTH - length) && mask == !ones
    requires SameStart(a, b, length)
    ensures And(a, Word(Swap(mask))) == And(b, Word(Swap(mask)))
  {
    assert Show(0);
    MaskedFromAlike(a.bits, b.bits, mask, ones);
  }

  /** Two addresses are masked to the same prefix of a length if and only if their first bits agree. */
  lemma {:induction false} SamePrefixExactly(a: Word, b: Word, length: nat)
    requires length <= WIDTH
    ensures And(a, NetOf(length)) == And(b, NetOf(length)) <==> SameStart(a, b, length)
  {
    var ones := PrefixMask(length);
    if And(a, NetOf(length)) == And(b, NetOf(length)) {
      StartFromMask(a, b, length, MaskOf(length), ones);
    }
    if SameStart(a, b, length) {
      MaskFromStart(a, b, length, MaskOf(length), ones);
    }
  }

  lemma {:induction false} MaskedIsAbove(a: Word, mask: bv32, ones: bv32)
    requires mask == !ones
    ensures var key := And(a, Word(Swap(mask)));
            && Above(Swap(key.bits), ones) == Above(Swap(a.bits), ones)
            && Above(Swap(key.bits), ones) == Swap(key.bits)
  {
    SwapMasked(a.bits, mask, ones);
    AboveTwice(Swap(a.bits), ones);
  }

  lemma {:induction false} MaskIsStart(a: Word, length: nat, mask: bv32, ones: bv32)
    requires length <= WIDTH && AreOnes(ones, WIDTH - length) && mask == !ones
    ensures SameStart(And(a, Word(Swap(mask))), a, length) && OnlyStart(And(a, Word(Swap(mask))), length)
  {
    assert Show(0);
    MaskedIsAbove(a, mask, ones);
  }

  /** A masked address has the first bits of the address, and no others. */
  lemma {:induction false} PrefixIsStart(a: Word, length: nat)
    requires length <= WIDTH
    ensures SameStart(And(a, NetOf(length)), a, length) && OnlyStart(And(a, NetOf(length)), length)
  {
    var ones := PrefixMask(length);
    MaskIsStart(a, length, MaskOf(length), ones);
  }

  /** How many of the lowest `b` bits are set. */
  function Population(subnets: bv32, b: nat): (n: nat) {
    if b == 0 then 0 else Population(subnets, b - 1) + if Asked(subnets, b - 1) then 1 else 0
  }

  lemma {:induction false} OneNetPerBit(subnets: bv32, b: nat)
    ensures |Nets(subnets, b)| == Population(subnets, b) <= b
  {
    if b > 0 {
      OneNetPerBit(subnets, b - 1);
    }
  }

  /** Counts the prefix lengths asked for. */
  method CalculateSubnets(subnets: bv32, width: nat) returns (n: nat)
    ensures n == Population(subnets, width)
  {
    n := 0;
    var rest := subnets;
    for b := 0 to width
      invariant n == Population(subnets, b) && rest == Shifted(subnets, b)
    {
      if Odd(rest) {
        n := n + 1;
      }
      rest := Half(rest);
    }
  }

  /** Where a loop over the prefix lengths has got to: its mask, what is left of the configuration word, and the
      number of levels passed. */
  ghost predicate Reached(subnets: bv32, b: nat, mask: bv32, rest: bv32, level: nat) {
    mask == MaskOf(b) && rest == Shifted(subnets, b) && level == |Nets(subnets, b)|
  }

  /** One round of the loop: a length that is asked for has the next level, and the mask of that level. */
  lemma {:induction false} NextLength(subnets: bv32, width: nat, b: nat, mask: bv32, rest: bv32, level: nat)
    requires b < width && Reached(subnets, b, mask, rest, level)
    ensures Reached(subnets, b + 1, Longer(mask), Half(rest), if Odd(rest) then level + 1 else level)
    ensures Odd(rest) ==> level < |Nets(subnets, width)| && Nets(subnets, width)[level] == NetOf(b + 1)
    ensures NetOf(b + 1) == Word(Swap(Longer(mask)))
  {
    NetsGrow(subnets, b + 1, width);
  }
}
