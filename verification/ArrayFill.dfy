/** Filling a range of a Wasm array by ever longer copies of what is already filled. */
module ArrayFill {
  import opened Arithmetic
  import opened Basics

  newtype int32 = x: int | -0x8000_0000 <= x < 0x8000_0000

  /** Numeric element sizes; each divides the eight bytes set first. */
  type ElementSize = n: nat | n == 1 || n == 2 || n == 4 || n == 8 witness 1

  /** Memory `m` with the `bytes` bytes from `start` on set to `value` over and over. */
  function Filled(m: seq<byte>, start: nat, bytes: nat, value: seq<byte>): (r: seq<byte>)
    requires |value| > 0
    ensures |r| == |m|
    ensures forall i :: 0 <= i < |m| ==> r[i] == if start <= i < start + bytes then value[(i - start) % |value|]
              else m[i]
  {
    seq(|m|, i requires 0 <= i < |m| => if start <= i < start + bytes then value[(i - start) % |value|] else m[i])
  }

  /** Filling makes every element the value and touches nothing outside the range. */
  lemma FilledElements(m: seq<byte>, start: nat, length: nat, value: seq<byte>, e: nat)
    requires |value| > 0 && start + length * |value| <= |m| && e < length
    ensures e * |value| + |value| <= length * |value|
    ensures Filled(m, start, length * |value|, value)[start + e * |value|..start + e * |value| + |value|] == value
    ensures Filled(m, start, length * |value|, value)[..start] == m[..start]
    ensures Filled(m, start, length * |value|, value)[start + length * |value|..] == m[start + length * |value|..]
  {
    MulApart(e, length, |value|);
    OneElement(m, start, length * |value|, value, e, e * |value|);
  }

  lemma OneElement(m: seq<byte>, start: nat, bytes: nat, value: seq<byte>, e: nat, at: nat)
    requires |value| > 0 && start + bytes <= |m| && at == e * |value| && at + |value| <= bytes
    ensures Filled(m, start, bytes, value)[start + at..start + at + |value|] == value
  {
    forall b | 0 <= b < |value|
      ensures Filled(m, start, bytes, value)[start + at + b] == value[b]
    {
      InElement(e, |value|, b);
    }
  }

  lemma InElement(e: nat, n: nat, b: nat)
    requires b < n
    ensures (e * n + b) % n == b
  {
    ModuloIs(e * n + b, n, e, b);
  }

  lemma InWord(at: nat, b: nat, size: ElementSize)
    requires at % size == 0 && b < size
    ensures (at + b) % size == b
  {
  }

  lemma WholeElements(done: nat, i: nat, size: ElementSize)
    requires done % 8 == 0
    ensures (done + i) % size == i % size
  {
    Divide(i, size);
    var word, q := done / 8, i / size;
    if size == 1 {
      ModuloIs(done + i, 1, 8 * word + q, i % 1);
    } else if size == 2 {
      ModuloIs(done + i, 2, 4 * word + q, i % 2);
    } else if size == 4 {
      ModuloIs(done + i, 4, 2 * word + q, i % 4);
    } else {
      ModuloIs(done + i, 8, word + q, i % 8);
    }
  }

  /** Copies between regions that do not overlap. */
  method MemCpy(mem: array<byte>, dst: nat, src: nat, n: nat)
    requires src + n <= dst && dst + n <= mem.Length
    modifies mem
    ensures forall i :: 0 <= i < mem.Length ==> mem[i] == old(mem[if dst <= i < dst + n then i - dst + src else i])
  {
    forall i | 0 <= i < n {
      mem[dst + i] := mem[src + i];
    }
  }

  method MemSetZero(mem: array<byte>, dst: nat, n: nat)
    requires dst + n <= mem.Length
    modifies mem
    ensures forall i :: 0 <= i < mem.Length ==> mem[i] == if dst <= i < dst + n then 0 else old(mem[i])
  {
    forall i | 0 <= i < n {
      mem[dst + i] := 0;
    }
  }

  /** The first eight bytes, element by element. */
  method SetFirst(mem: array<byte>, start: nat, size: ElementSize, value: seq<byte>)
    requires |value| == size && start + 8 <= mem.Length
    modifies mem
    ensures mem[..] == Filled(old(mem[..]), start, 8, value)
  {
    var at := 0;
    while at < 8
      invariant at <= 8 && at % size == 0
      invariant mem[..] == Filled(old(mem[..]), start, at, value)
    {
      StoreElement(mem, start, at, size, value, old(mem[..]));
      at := at + size;
    }
  }

  method StoreElement(mem: array<byte>, start: nat, at: nat, size: ElementSize, value: seq<byte>, ghost was: seq<byte>)
    requires |value| == size && at % size == 0 && start + at + size <= mem.Length == |was|
    requires mem[..] == Filled(was, start, at, value)
    modifies mem
    ensures mem[..] == Filled(was, start, at + size, value)
  {
    forall b | 0 <= b < size {
      mem[start + at + b] := value[b];
    }
    forall i | start + at <= i < start + at + size
      ensures mem[i] == value[(i - start) % size]
    {
      InWord(at, i - start - at, size);
    }
  }

  /** Fills `length` elements from `start` on. The input of a narrow element is four bytes
      wide; the element takes the low ones. The arithmetic is that of 32-bit integers. */
  method ArrayFill(mem: array<byte>, start: nat, length: nat, size: ElementSize, input: seq<byte>)
    requires size <= |input|
    requires 8 <= length * size < 0x4000_0000 && start + length * size <= mem.Length
    modifies mem
    ensures mem[..] == Filled(old(mem[..]), start, length * size, input[..size])
  {
    var value := input[..size];
    var bytesToSet := (length * size) as int32;
    ghost var was := mem[..];
    if forall b | 0 <= b < size :: value[b] == 0 {
      MemSetZero(mem, start, length * size);
      assert mem[..] == Filled(was, start, length * size, value);
      return;
    }
    SetFirst(mem, start, size, value);
    var done: int32 := 8;
    while done * 2 <= bytesToSet
      invariant 8 <= done <= bytesToSet && done as int % 8 == 0
      invariant mem[..] == Filled(was, start, done as nat, value)
      decreases bytesToSet - done
    {
      MemCpy(mem, start + done as nat, start, done as nat);
      Doubled(mem[..], was, start, done as nat, done as nat, size, value);
      done := done * 2;
    }
    if done < bytesToSet {
      MemCpy(mem, start + done as nat, start, (bytesToSet - done) as nat);
      Doubled(mem[..], was, start, done as nat, (bytesToSet - done) as nat, size, value);
    }
  }

  /** Copying filled bytes right behind the filled part fills on. */
  lemma Doubled(m: seq<byte>, was: seq<byte>, start: nat, done: nat, more: nat, size: ElementSize, value: seq<byte>)
    requires |value| == size && done % 8 == 0 && more <= done && start + done + more <= |was| == |m|
    requires var f := Filled(was, start, done, value);
             forall i :: 0 <= i < |m| ==> m[i] == f[if start + done <= i < start + done + more then i - done else i]
    ensures m == Filled(was, start, done + more, value)
  {
    forall i | 0 <= i < |m|
      ensures m[i] == Filled(was, start, done + more, value)[i]
    {
      if start + done <= i < start + done + more {
        WholeElements(done, i - start - done, size);
      }
    }
  }
}
