/** HashUtils.Simple: a 32-bit hash of a seed and an int2 grid position.
    uint and ulong arithmetic is bit-vector arithmetic: products wrap
    modulo 2^32 and right shifts are logical. A signed int is held as its
    32-bit two's-complement pattern, so (uint)v is the pattern itself. */
module HashUtils {
  /** An int2: two signed ints, each as its two's-complement pattern. */
  datatype Int2 = Int2(x: bv32, y: bv32)

  predicate Negative(v: bv32)
  {
    v & 0x8000_0000 != 0
  }

  /** (uint)(c & 0xFFFFFFFF): the low word. */
  function Low(c: bv64): bv32
  {
    (c & 0xFFFF_FFFF) as bv32
  }

  /** (uint)(c >> 32): the high word. */
  function High(c: bv64): bv32
  {
    (c >> 32) as bv32
  }

  /** combined = ((ulong)pos.x << 32) | (uint)pos.y, where (ulong)pos.x
      sign-extends. The shift pushes the sign extension out, so the low
      word is pos.y and the high word pos.x. */
  function Combined(pos: Int2): (r: bv64)
    ensures Low(r) == pos.y
    ensures High(r) == pos.x
  {
    (((pos.x as bv64) | (if Negative(pos.x) then 0xFFFF_FFFF_0000_0000 else 0)) << 32) | (pos.y as bv64)
  }

  /** The mixing steps: xor in the low word, multiply, xor-shift, xor in
      the high word, multiply, xor-shift. */
  function Mix(seed: bv32, low: bv32, high: bv32): bv32
  {
    var h1 := seed ^ low;
    var h2 := h1 * 0x85EB_CA6B;
    var h3 := h2 ^ (h2 >> 13);
    var h4 := h3 ^ high;
    var h5 := h4 * 0xC2B2_AE35;
    h5 ^ (h5 >> 16)
  }

  /** return hash + 1: wraps to 0 exactly at 0xFFFFFFFF. */
  function Finish(hash: bv32): (r: bv32)
    ensures r == 0 <==> hash == 0xFFFF_FFFF
  {
    hash + 1
  }

  /** Simple(seed, pos), step by step as written. */
  function Simple(seed: bv32, pos: Int2): bv32
  {
    var combined := Combined(pos);
    Finish(Mix(seed, Low(combined), High(combined)))
  }

  /** The hash mixes the seed with pos.y first and pos.x second, and is 0
      exactly when the mixed value is 0xFFFFFFFF. */
  lemma SimpleWords(seed: bv32, pos: Int2)
    ensures Simple(seed, pos) == Finish(Mix(seed, pos.y, pos.x))
    ensures Simple(seed, pos) == 0 <==> Mix(seed, pos.y, pos.x) == 0xFFFF_FFFF
  {
  }
}
