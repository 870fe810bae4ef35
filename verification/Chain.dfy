/** One block of an evbuffer: a fixed allocation of which a window holds data. */
module ChainModule {
  import opened ByteSeq

  const SIZE_MAX := 0xffff_ffff_ffff_ffff
  const SSIZE_MAX := 0x7fff_ffff_ffff_ffff
  // The block header (a 64-bit layout) shares the allocation with the bytes.
  const CHAIN_SIZE := 48
  const CHAIN_MAX := SSIZE_MAX
  const MIN_BUFFER_SIZE := 1024
  const CHAIN_MAX_AUTO_SIZE := 4096
  const MAX_TO_COPY_IN_EXPAND := 4096
  const MAX_TO_REALIGN_IN_EXPAND := 2048
  // The largest request a single block can serve.
  const MAX_REQUEST := CHAIN_MAX - CHAIN_SIZE

  /** memcpy(a + at, data, |data|) */
  method Memcpy(a: array<Byte>, at: nat, data: seq<Byte>)
    requires at + |data| <= a.Length
    modifies a
    ensures a[..at] == old(a[..at])
    ensures a[at..at + |data|] == data
    ensures a[at + |data|..] == old(a[at + |data|..])
  {
    forall i | 0 <= i < |data| {
      a[at + i] := data[i];
    }
  }

  /** Extends a copied prefix of `all[start..]` by the next bytes. */
  method Extend(out: array<Byte>, done: nat, data: seq<Byte>, ghost all: seq<Byte>, ghost start: nat)
    requires done + |data| <= out.Length && start + done + |data| <= |all|
    requires out[..done] == all[start..start + done] && data == all[start + done..start + done + |data|]
    modifies out
    ensures out[..done + |data|] == all[start..start + done + |data|]
    ensures forall i :: done + |data| <= i < out.Length ==> out[i] == old(out[i])
  {
    Memcpy(out, done, data);
    forall i | done + |data| <= i < out.Length
      ensures out[i] == old(out[i])
    {
      assert out[done + |data|..][i - done - |data|] == old(out[done + |data|..][i - done - |data|]);
    }
    assert out[..done + |data|] == out[..done] + out[done..done + |data|];
  }

  class Chain {
    var next: Chain?
    var misalign: nat
    var off: nat
    const buffer: array<Byte>
    const immutable: bool

    /** The data window lies inside the allocation.  A block that refers to the user's own memory
        is filled to its end, and is empty only if that memory is. */
    ghost predicate Valid()
      reads this`misalign, this`off
    {
      && misalign + off <= buffer.Length <= MAX_REQUEST
      && (if immutable then misalign + off == buffer.Length && (off == 0 ==> buffer.Length == 0) else buffer.Length > 0)
    }

    ghost function Data(): (d: seq<Byte>)
      requires Valid()
      reads this`misalign, this`off, buffer
      ensures |d| == off
    {
      buffer[misalign..misalign + off]
    }

    lemma Window(a: nat, b: nat)
      requires Valid() && a <= b <= off
      ensures buffer[misalign + a..misalign + b] == Data()[a..b]
    {
      forall i | 0 <= i < b - a
        ensures buffer[misalign + a..misalign + b][i] == Data()[a..b][i]
      {
        assert Data()[a + i] == buffer[misalign + a + i];
      }
    }

    constructor (capacity: nat)
      requires 0 < capacity <= MAX_REQUEST
      ensures fresh(buffer)
      ensures buffer.Length == capacity && !immutable && next == null && misalign == off == 0
    {
      buffer := new Byte[capacity];
      immutable := false;
      next, misalign, off := null, 0, 0;
    }

    constructor Reference(data: array<Byte>)
      requires data.Length <= MAX_REQUEST
      ensures buffer == data && immutable && next == null && misalign == 0 && off == data.Length
    {
      buffer := data;
      immutable := true;
      next, misalign, off := null, 0, data.Length;
    }

    /** How many bytes can be appended in place. */
    function SpaceLen(): nat
      requires Valid()
      reads this`misalign, this`off
    {
      if immutable then 0 else buffer.Length - (misalign + off)
    }

    /** Appends to the window, in place. */
    method AppendData(data: seq<Byte>)
      requires Valid() && !immutable && |data| <= SpaceLen()
      modifies this`off, buffer
      ensures Valid() && off == old(off) + |data| && Data() == old(Data()) + data
    {
      ghost var d := Data();
      Memcpy(buffer, misalign + off, data);
      off := off + |data|;
      assert buffer[misalign..misalign + off] == buffer[..misalign + old(off)][misalign..] + buffer[misalign + old(off)..misalign + off];
      assert d == old(buffer[..misalign + off])[misalign..];
    }

    /** Grows the window downwards into the slack in front of it. */
    method PrependData(data: seq<Byte>)
      requires Valid() && !immutable && |data| <= misalign
      modifies this`off, this`misalign, buffer
      ensures Valid() && misalign == old(misalign) - |data| && off == old(off) + |data|
      ensures Data() == data + old(Data())
    {
      ghost var d := Data();
      Memcpy(buffer, misalign - |data|, data);
      off := off + |data|;
      misalign := misalign - |data|;
      assert buffer[misalign..misalign + off] == buffer[misalign..misalign + |data|] + buffer[misalign + |data|..][..old(off)];
      assert d == old(buffer[misalign..])[..old(off)];
    }

    /** Fills an empty block at the very end of its allocation. */
    method FillAtEnd(data: seq<Byte>)
      requires Valid() && !immutable && |data| <= buffer.Length
      modifies this`off, this`misalign, buffer
      ensures Valid() && off == |data| && misalign == buffer.Length - |data| && Data() == data
    {
      off := |data|;
      misalign := buffer.Length - |data|;
      Memcpy(buffer, misalign, data);
    }

    /** Moves the data to the front of the allocation. */
    method Align()
      requires Valid() && !immutable
      modifies this`misalign, buffer
      ensures Valid() && misalign == 0 && Data() == old(Data())
    {
      Memcpy(buffer, 0, buffer[misalign..misalign + off]);
      misalign := 0;
    }

    predicate ShouldRealign(datalen: nat)
      requires Valid()
      reads this`misalign, this`off
    {
      && buffer.Length - off >= datalen
      && off < buffer.Length / 2
      && off <= MAX_TO_REALIGN_IN_EXPAND
    }
  }

  /** Allocates a block with room for `size` bytes, rounding small allocations up to a power of two;
      refuses exactly the sizes that cannot be represented. */
  method ChainNew(size: nat) returns (c: Chain?)
    ensures c == null <==> size > MAX_REQUEST
    ensures c != null ==> fresh(c) && fresh(c.buffer) && c.Valid() && !c.immutable && c.next == null
    ensures c != null ==> c.misalign == c.off == 0 && size <= c.buffer.Length && 0 < c.buffer.Length
    ensures c != null && size + CHAIN_SIZE < CHAIN_MAX / 2 ==>
              c.buffer.Length + CHAIN_SIZE == MIN_BUFFER_SIZE || c.buffer.Length + CHAIN_SIZE < 2 * (size + CHAIN_SIZE)
    ensures c != null && size + CHAIN_SIZE <= MIN_BUFFER_SIZE ==> c.buffer.Length + CHAIN_SIZE == MIN_BUFFER_SIZE
  {
    if size > CHAIN_MAX - CHAIN_SIZE {
      return null;
    }
    var wanted := size + CHAIN_SIZE;
    var toAlloc := wanted;
    if wanted < CHAIN_MAX / 2 {
      toAlloc := MIN_BUFFER_SIZE;
      while toAlloc < wanted
        invariant MIN_BUFFER_SIZE <= toAlloc
        invariant toAlloc == MIN_BUFFER_SIZE || (MIN_BUFFER_SIZE < wanted && toAlloc < 2 * wanted)
      {
        toAlloc := toAlloc * 2;
      }
    }
    c := new Chain(toAlloc - CHAIN_SIZE);
  }
}
