/** Words of sixteen bits and their bytes.

    The operations on them have names, and the laws of these operations are lemmas: exclusive or is associative and
    commutative and undoes itself, halving a word and taking its lowest bit both distribute over it, and a word is its
    upper byte joined with its lower byte.

    The laws are proved bit by bit, once and here.  Everywhere else the operations stay closed, and a proof about a
    shift register is a proof from these laws; so it does not depend on how wide a word is, and it can follow the
    messages, whose length is not bounded, instead of the bits of one word. */
module Words {

  function Xor(x: bv16, y: bv16): bv16 {
    x ^ y
  }

  function Half(c: bv16): bv16 {
    c >> 1
  }

  function Up(p: bv16): bv16 {
    p << 1
  }

  predicate Odd(c: bv16) {
    c & 1 == 1
  }

  function Bit(b: bool): bv16 {
    if b then 1 else 0
  }

  lemma XorAssoc(x: bv16, y: bv16, z: bv16)
    ensures Xor(x, Xor(y, z)) == Xor(Xor(x, y), z)
  {
  }

  lemma XorComm(x: bv16, y: bv16)
    ensures Xor(x, y) == Xor(y, x)
  {
  }

  lemma XorSelf(x: bv16)
    ensures Xor(x, x) == 0
  {
  }

  lemma XorZero(x: bv16)
    ensures Xor(x, 0) == x && Xor(0, x) == x
  {
  }

  lemma XorCancel(c: bv16, x: bv16, y: bv16)
    requires Xor(c, x) == Xor(c, y)
    ensures x == y
  {
    hide Xor;
    XorAssoc(c, c, x);
    XorAssoc(c, c, y);
    XorSelf(c);
    XorZero(x);
    XorZero(y);
  }

  lemma XorCancelRight(x: bv16, y: bv16, b: bv16)
    requires Xor(x, b) == Xor(y, b)
    ensures x == y
  {
    hide Xor;
    XorComm(x, b);
    XorComm(y, b);
    XorCancel(b, x, y);
  }

  lemma OddXor(x: bv16, y: bv16)
    ensures Odd(Xor(x, y)) <==> Odd(x) != Odd(y)
  {
  }

  lemma HalfXor(x: bv16, y: bv16)
    ensures Half(Xor(x, y)) == Xor(Half(x), Half(y))
  {
  }

  lemma UpParts(p: bv16)
    requires p < 32768
    ensures !Odd(Up(p)) && Half(Up(p)) == p
  {
  }

  lemma BitParts(b: bool)
    ensures (Odd(Bit(b)) <==> b) && Half(Bit(b)) == 0
  {
  }

  // ---------------------------------------------------------------- bytes

  function Wide(x: bv8): bv16 {
    x as bv16
  }

  /** The word with low byte `x` and high byte `y`. */
  function Joined(x: bv8, y: bv8): bv16 {
    (x as bv16) | ((y as bv16) << 8)
  }

  function Low(c: bv16): bv8 {
    (c & 0xFF) as bv8
  }

  function High(c: bv16): bv8 {
    (c >> 8) as bv8
  }

  function XorBytes(x: bv8, y: bv8): bv8 {
    x ^ y
  }

  lemma JoinedParts(x: bv8, y: bv8)
    ensures Low(Joined(x, y)) == x && High(Joined(x, y)) == y
  {
  }

  lemma JoinedWhole(c: bv16)
    ensures Joined(Low(c), High(c)) == c
  {
  }

  lemma LowXor(x: bv16, y: bv16)
    ensures Low(Xor(x, y)) == XorBytes(Low(x), Low(y)) && High(Xor(x, y)) == XorBytes(High(x), High(y))
  {
  }

  lemma WideParts(x: bv8)
    ensures Low(Wide(x)) == x && High(Wide(x)) == 0
  {
  }

  lemma XorBytesZero(x: bv8)
    ensures XorBytes(x, 0) == x && XorBytes(x, x) == 0
  {
  }
}
