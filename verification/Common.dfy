/** Values that may be absent, such as a NULL-able pointer. */
module Options {
  datatype Option<+T> = None | Some(value: T)
}

/** Machine words: the conversions of C between integer widths. */
module Words {
  const TWO_16 := 0x1_0000
  const TWO_31 := 0x8000_0000
  const TWO_32 := 0x1_0000_0000

  type Byte = b: int | 0 <= b < 256

  /** Conversion to `int`. */
  function ToInt32(x: int): (r: int)
    ensures -TWO_31 <= r < TWO_31
    ensures -TWO_31 <= x < TWO_31 ==> r == x
    ensures TWO_31 <= x < TWO_32 ==> r == x - TWO_32
  {
    var y := x % 0x1_0000_0000;
    if y >= TWO_31 then y - TWO_32 else y
  }

  /** A 32-bit counter. */
  function Word32(x: nat): (r: nat)
    ensures r < TWO_32 && (x < TWO_32 ==> r == x)
  {
    x % 0x1_0000_0000
  }

  /** Counting in 32 bits is counting, cut to 32 bits. */
  lemma Word32Next(x: nat)
    ensures Word32(Word32(x) + 1) == Word32(x + 1)
  {
  }

  /** Conversion to `uint16_t`. */
  function ToUint16(x: int): (r: nat)
    ensures r < TWO_16
    ensures 0 <= x < TWO_16 ==> r == x
  {
    x % 0x1_0000
  }
}

module Sequences {
  lemma Regroup<T>(a: seq<T>, b: seq<T>, c: seq<T>)
    ensures a + (b + c) == a + b + c
  {
  }
}
