/** The packed bit array of c-libs/bitarray/RND_BitArray.c and its renamed
    copy c-libs/bitmap/RND_BitMap.c (only the identifiers differ).

    `size` bits live in ceil(size / 8) bytes. Bit i is the bit selected by
    the mask 0x80 >> (i % 8) in byte i / 8, so within a byte the bits are
    numbered from the most significant one down. Every operation takes the
    array by a pointer that may be NULL, so the operations below take a
    nullable `BitArray?`. */
module BitArray {

  /** The number of bytes RND_bitArrayCreate allocates for `size` bits:
      the fewest that hold them all. */
  function ByteCount(size: nat): (n: nat)
    ensures size <= 8 * n < size + 8
  {
    size / 8 + (if size % 8 != 0 then 1 else 0)
  }

  /** Every index below `size` falls in one of the allocated bytes. */
  lemma IndexInBytes(size: nat, index: nat)
    requires index < size
    ensures index / 8 < ByteCount(size)
  {
  }

  /** The mask `0x80 >> (index % 8)`, spelled out for each position within
      the byte: exactly one bit set, the most significant one for position 0. */
  function Mask(index: nat): (m: bv8)
    ensures m != 0
    ensures m & (m - 1) == 0
  {
    match index % 8
    case 0 => 0x80
    case 1 => 0x40
    case 2 => 0x20
    case 3 => 0x10
    case 4 => 0x08
    case 5 => 0x04
    case 6 => 0x02
    case _ => 0x01
  }

  /** The spelled-out masks are the shifts `0x80 >> (index % 8)`. */
  lemma MaskIsShift(index: nat)
    ensures Mask(index) == 0x80 >> (index % 8) as bv8
  {
  }

  /** Two indices in the same byte share a mask exactly when they are the
      same position within that byte. */
  lemma MaskDistinct(i: nat, j: nat)
    requires i % 8 != j % 8
    ensures Mask(i) & Mask(j) == 0
  {
  }

  /** Bit `index` of the packed bytes. */
  function BitAt(bytes: seq<bv8>, index: nat): bool
    requires index / 8 < |bytes|
  {
    bytes[index / 8] & Mask(index) != 0
  }

  /** The bytes after bit `index` is written with `value`: byte index / 8
      has the mask or-ed in, or and-ed out. */
  function SetBit(bytes: seq<bv8>, index: nat, value: bool): (r: seq<bv8>)
    requires index / 8 < |bytes|
    ensures |r| == |bytes|
    ensures forall k :: 0 <= k < |bytes| && k != index / 8 ==> r[k] == bytes[k]
  {
    bytes[index / 8 := Written(bytes[index / 8], Mask(index), value)]
  }

  /** A byte with the bit of mask `m` or-ed in (value true) or and-ed out. */
  function Written(field: bv8, m: bv8, value: bool): bv8
  {
    if value then field | m else field & !m
  }

  /** Writing a bit makes it read back as written and leaves every other
      bit as it was. */
  lemma SetThenGet(bytes: seq<bv8>, index: nat, value: bool, other: nat)
    requires index / 8 < |bytes| && other / 8 < |bytes|
    ensures BitAt(SetBit(bytes, index, value), other)
            == if other == index then value else BitAt(bytes, other)
  {
    if other != index && other / 8 == index / 8 {
      assert other % 8 != index % 8;
      MaskDistinct(index, other);
      var field := bytes[index / 8];
      var m, n := Mask(index), Mask(other);
      assert (field | m) & n == field & n;
      assert (field & !m) & n == field & n;
    }
  }

  /** Writing the value a bit already has changes nothing. */
  lemma SetSameValue(bytes: seq<bv8>, index: nat)
    requires index / 8 < |bytes|
    ensures SetBit(bytes, index, BitAt(bytes, index)) == bytes
  {
    var k := index / 8;
    WriteOwnBit(bytes[k], Mask(index));
    assert bytes[k := bytes[k]] == bytes;
  }

  /** Writing a byte's own masked bit back gives the byte. */
  lemma WriteOwnBit(field: bv8, m: bv8)
    requires m & (m - 1) == 0
    ensures Written(field, m, field & m != 0) == field
  {
    if field & m != 0 {
      assert field & m == m;
    }
  }

  /** Toggling flips the bit: the bytes after one toggle of `index`. */
  function Toggled(bytes: seq<bv8>, index: nat): seq<bv8>
    requires index / 8 < |bytes|
  {
    SetBit(bytes, index, !BitAt(bytes, index))
  }

  /** A byte with the bit of mask `m` flipped. */
  function Flip(field: bv8, m: bv8): bv8
  {
    if field & m != 0 then field & !m else field | m
  }

  /** Flipping one masked bit of a byte twice gives the byte back. */
  lemma FlipByteTwice(field: bv8, m: bv8)
    requires m != 0 && m & (m - 1) == 0
    ensures Flip(Flip(field, m), m) == field
  {
    if field & m != 0 {
      assert field & m == m;
    }
  }

  /** One toggle rewrites byte index / 8 with the masked bit flipped. */
  lemma ToggledIsFlip(bytes: seq<bv8>, index: nat)
    requires index / 8 < |bytes|
    ensures Toggled(bytes, index) == bytes[index / 8 := Flip(bytes[index / 8], Mask(index))]
  {
  }

  /** Toggling the same bit twice restores the bytes. */
  lemma ToggleTwice(bytes: seq<bv8>, index: nat)
    requires index / 8 < |bytes|
    ensures |Toggled(bytes, index)| == |bytes|
    ensures Toggled(Toggled(bytes, index), index) == bytes
  {
    var k, m := index / 8, Mask(index);
    var once := bytes[k := Flip(bytes[k], m)];
    ToggledIsFlip(bytes, index);
    ToggledIsFlip(once, index);
    FlipByteTwice(bytes[k], m);
    assert once[k := Flip(once[k], m)] == bytes;
  }

  class BitArray {
    /** The number of bits. */
    const size: nat
    /** The ceil(size / 8) bytes holding them. */
    const bits: array<bv8>

    ghost predicate Valid()
    {
      bits.Length == ByteCount(size)
    }

    /** RND_bitArrayCreate / RND_bitMapCreate: remember `size` and allocate
        the bytes zeroed (calloc), so every bit reads false. */
    constructor Create(size: nat)
      ensures Valid() && this.size == size && fresh(bits)
      ensures forall k :: 0 <= k < bits.Length ==> bits[k] == 0
    {
      this.size := size;
      bits := new bv8[ByteCount(size)](_ => 0);
    }
  }

  /** RND_bitArrayGet / RND_bitMapGet: false for a NULL array or an index
      at or past `size`, otherwise bit `index`. */
  function Get(b: BitArray?, index: nat): (r: bool)
    requires b != null ==> b.Valid()
    reads if b != null then {b.bits} else {}
    ensures r ==> b != null && index < b.size
    ensures b != null && index < b.size ==> index / 8 < b.bits.Length && r == BitAt(b.bits[..], index)
  {
    if b == null || index >= b.size then false
    else
      IndexInBytes(b.size, index);
      b.bits[index / 8] & Mask(index) != 0
  }

  /** RND_bitArraySet / RND_bitMapSet: 1 for a NULL array or an index at or
      past `size` (the header documents 2 for the latter, the code answers
      1), with nothing changed; otherwise byte index / 8 is rewritten so that
      bit `index` holds `value`, and the answer is 0. */
  method Set(b: BitArray?, index: nat, value: bool) returns (rc: int)
    requires b != null ==> b.Valid()
    modifies if b != null then {b.bits} else {}
    ensures rc == (if b == null || index >= b.size then 1 else 0)
    ensures b != null && rc == 0 ==> b.bits[..] == SetBit(old(b.bits[..]), index, value)
    ensures b != null && rc == 1 ==> b.bits[..] == old(b.bits[..])
  {
    if b == null {
      return 1;
    }
    if index >= b.size {
      return 1;
    }
    IndexInBytes(b.size, index);
    var field := index / 8;
    b.bits[field] := Written(b.bits[field], Mask(index), value);
    rc := 0;
  }

  /** RND_bitArrayToggle / RND_bitMapToggle: 1 for a NULL array or an index
      at or past `size` with nothing changed; otherwise bit `index` is
      flipped and the answer is 0. */
  method Toggle(b: BitArray?, index: nat) returns (rc: int)
    requires b != null ==> b.Valid()
    modifies if b != null then {b.bits} else {}
    ensures rc == (if b == null || index >= b.size then 1 else 0)
    ensures b != null && rc == 0 ==> b.bits[..] == Toggled(old(b.bits[..]), index)
    ensures b != null && rc == 1 ==> b.bits[..] == old(b.bits[..])
  {
    if b == null {
      return 1;
    }
    if index >= b.size {
      return 1;
    }
    IndexInBytes(b.size, index);
    var newval := !(b.bits[index / 8] & Mask(index) != 0);
    var field := index / 8;
    b.bits[field] := Written(b.bits[field], Mask(index), newval);
    rc := 0;
  }

  /** RND_bitArraySize / RND_bitMapSize: 0 for a NULL array, otherwise the
      number of bits it was created with. */
  function Size(b: BitArray?): (n: nat)
    ensures b != null ==> n == b.size
    ensures b == null ==> n == 0
  {
    if b == null then 0 else b.size
  }

  /** A new array of `size` bits reports that size and reads false at every
      index; setting one bit then reads it back true and leaves its
      neighbour false. */
  method CreateSetGet(size: nat, index: nat) returns (n: nat, before: bool, after: bool, next: bool)
    requires index + 1 < size
    ensures n == size && !before && after && !next
  {
    var b := new BitArray.Create(size);
    n := Size(b);
    before := Get(b, index);
    ghost var zeroed := b.bits[..];
    var rc := Set(b, index, true);
    after := Get(b, index);
    SetThenGet(zeroed, index, true, index);
    SetThenGet(zeroed, index, true, index + 1);
    next := Get(b, index + 1);
  }
}
