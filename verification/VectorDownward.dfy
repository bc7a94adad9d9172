/** A byte vector that grows towards lower addresses, with a scratch stack in the unused room below it. */
module VectorDownward {
  import opened Bytes

  const MAX_BUFFER_SIZE: nat := 0x7FFF_FFFF

  /** `(n + s - 1) & ~(s - 1)`. */
  function RoundUp(n: nat, s: nat): (m: nat)
    requires IsAlignment(s)
  {
    n + s - 1 - Mask(n + s - 1, s)
  }

  lemma Floor(n: nat)
    ensures (n - n % 2) % 2 == 0 && (n - n % 4) % 4 == 0 && (n - n % 8) % 8 == 0 && (n - n % 16) % 16 == 0
  {
  }

  lemma RoundsUp(n: nat, s: nat)
    requires IsAlignment(s)
    ensures n <= RoundUp(n, s) < n + s && Aligned(RoundUp(n, s), s)
  {
    Floor(n + s - 1);
  }

  /** By half of what there is, or by the initial size, if that is enough. */
  function Growth(len: nat, reserved: nat, initialSize: nat): (n: nat)
    ensures n >= len && n >= reserved / 2
    ensures n == len || n == reserved / 2 || (reserved == 0 && n == initialSize)
  {
    var half := if reserved != 0 then reserved / 2 else initialSize;
    if len > half then len else half
  }

  /** The operations of a run. */
  datatype Op =
    | Push(bytes: seq<byte>)
    | Fill(zeros: nat)
    | Pop(count: nat)
    | ScratchPush(bytes: seq<byte>)
    | ScratchPop(count: nat)
    | Clear

  lemma OverwriteLeft(x: seq<byte>, y: seq<byte>, at: nat, bytes: seq<byte>)
    requires at + |bytes| <= |x|
    ensures Overwrite(x + y, at, bytes) == Overwrite(x, at, bytes) + y
  {
  }

  lemma OverwriteMid(x: seq<byte>, y: seq<byte>, z: seq<byte>, bytes: seq<byte>)
    requires |bytes| == |y|
    ensures Overwrite(x + (y + z), |x|, bytes) == x + (bytes + z)
  {
  }

  lemma OverwriteFront(s: seq<byte>, bytes: seq<byte>)
    requires |bytes| <= |s|
    ensures Overwrite(s, 0, bytes) == bytes + s[|bytes|..]
  {
  }

  class VectorDownward {
    const initialSize: nat
    const bufferMinAlign: nat
    var buf: array?<byte>
    var reserved: nat
    var cur: nat      // the boundary between empty (below) and used (above)
    var scratch: nat  // the end of the scratch area in use

    ghost predicate Valid()
      reads this
    {
      && IsAlignment(bufferMinAlign)
      && scratch <= cur <= reserved
      && if buf == null then reserved == 0 else buf.Length == reserved
    }

    /** The bytes of the vector, lowest address first. */
    function Data(): (s: seq<byte>)
      requires Valid()
      reads this, buf
      ensures |s| == reserved - cur
    {
      if buf == null then [] else buf[cur..]
    }

    /** The bytes on the scratch stack, oldest first. */
    ghost function Scratch(): (s: seq<byte>)
      requires Valid()
      reads this, buf
      ensures |s| == scratch
    {
      if buf == null then [] else buf[..scratch]
    }

    /** The memory is the old one, or new. */
    twostate predicate Kept()
      reads this
    {
      buf == old(buf) || (buf != null && fresh(buf))
    }

    constructor (initialSize: nat, bufferMinAlign: nat)
      requires IsAlignment(bufferMinAlign)
      ensures Valid() && buf == null && Data() == [] && Scratch() == []
      ensures this.initialSize == initialSize && this.bufferMinAlign == bufferMinAlign
    {
      this.initialSize, this.bufferMinAlign := initialSize, bufferMinAlign;
      buf, reserved, cur, scratch := null, 0, 0, 0;
    }

    method ClearScratch()
      requires Valid()
      modifies this`scratch
      ensures Valid() && Data() == old(Data()) && Scratch() == []
    {
      scratch := 0;
    }

    method Clear()
      requires Valid()
      modifies this
      ensures Valid() && Data() == [] && Scratch() == [] && buf == old(buf)
    {
      if buf != null {
        cur := reserved;
      } else {
        reserved, cur := 0, 0;
      }
      ClearScratch();
    }

    /** Drops the memory as well. */
    method Reset()
      requires Valid()
      modifies this
      ensures Valid() && Data() == [] && Scratch() == [] && buf == null
    {
      buf, reserved, cur, scratch := null, 0, 0, 0;
    }

    function Size(): (n: nat)
      requires Valid()
      reads this, buf
      ensures n == |Data()|
    {
      reserved - cur
    }

    function ScratchSize(): (n: nat)
      requires Valid()
      reads this, buf
      ensures n == |Scratch()|
    {
      scratch
    }

    /** The address of what is `offset` bytes before the end. */
    function DataAt(offset: nat): (p: nat)
      requires Valid() && offset <= reserved
      reads this
    {
      reserved - offset
    }

    /** The scalar of `n` bytes at an address. */
    function Load(at: nat, n: nat): nat
      requires Valid() && buf != null && at + n <= reserved
      reads this, buf
    {
      FromLE(buf[at..at + n])
    }

    lemma LoadData(at: nat, n: nat)
      requires Valid() && buf != null && cur <= at && at + n <= reserved
      ensures Load(at, n) == LE(Data(), at - cur, n)
    {
      assert buf[at..at + n] == Data()[at - cur..at - cur + n];
    }

    lemma LoadScratch(at: nat, n: nat)
      requires Valid() && buf != null && at + n <= scratch
      ensures Load(at, n) == LE(Scratch(), at, n)
    {
      assert buf[at..at + n] == Scratch()[at..at + n];
    }

    /** Copies both ends into a larger block: the used bytes at the back, the scratch at the front. */
    static method ReallocateDownward(oldBuf: array<byte>, newSize: nat, inUseBack: nat, inUseFront: nat)
      returns (newBuf: array<byte>)
      requires newSize > oldBuf.Length && inUseBack + inUseFront <= oldBuf.Length
      ensures fresh(newBuf) && newBuf.Length == newSize
      ensures newBuf[newSize - inUseBack..] == oldBuf[oldBuf.Length - inUseBack..]
      ensures newBuf[..inUseFront] == oldBuf[..inUseFront]
    {
      newBuf := new byte[newSize];
      forall i | 0 <= i < inUseBack {
        newBuf[newSize - inUseBack + i] := oldBuf[oldBuf.Length - inUseBack + i];
      }
      forall i | 0 <= i < inUseFront {
        newBuf[i] := oldBuf[i];
      }
    }

    /** Grows strictly, leaves room for `len` more bytes, and moves neither stack's contents. */
    method Reallocate(len: nat)
      requires Valid() && len > cur - scratch
      modifies this
      ensures Valid() && buf != null && fresh(buf)
      ensures reserved > old(reserved) && Aligned(reserved, bufferMinAlign)
      ensures reserved == RoundUp(old(reserved) + Growth(len, old(reserved), initialSize), bufferMinAlign)
      ensures cur - scratch >= len
      ensures Data() == old(Data()) && Scratch() == old(Scratch())
    {
      hide Mask, RoundUp, Aligned;
      var oldReserved, oldSize, oldScratchSize := reserved, Size(), ScratchSize();
      var half := if oldReserved != 0 then oldReserved / 2 else initialSize;
      reserved := reserved + if len > half then len else half;
      RoundsUp(reserved, bufferMinAlign);
      reserved := RoundUp(reserved, bufferMinAlign);
      if buf != null {
        buf := ReallocateDownward(buf, reserved, oldSize, oldScratchSize);
      } else {
        buf := new byte[reserved];
      }
      cur := reserved - oldSize;
      scratch := oldScratchSize;
    }

    method EnsureSpace(len: nat)
      requires Valid() && Size() < MAX_BUFFER_SIZE
      modifies this
      ensures Valid() && Kept() && cur - scratch >= len
      ensures Data() == old(Data()) && Scratch() == old(Scratch())
    {
      if len > cur - scratch {
        Reallocate(len);
      }
    }

    /** The new bytes are whatever the memory held. */
    method MakeSpace(len: nat)
      requires Valid() && Size() < MAX_BUFFER_SIZE
      modifies this
      ensures Valid() && Kept() && (len > 0 ==> buf != null)
      ensures |Data()| == len + |old(Data())| && Data()[len..] == old(Data()) && Scratch() == old(Scratch())
    {
      EnsureSpace(len);
      cur := cur - len;
    }

    /** Stores bytes at an address in use. */
    method Store(at: nat, bytes: seq<byte>)
      requires Valid() && buf != null && cur <= at && at + |bytes| <= reserved
      modifies buf
      ensures Data() == Overwrite(old(Data()), at - cur, bytes)
      ensures Scratch() == old(Scratch())
    {
      forall i | 0 <= i < |bytes| {
        buf[at + i] := bytes[i];
      }
    }

    method Push(bytes: seq<byte>)
      requires Valid() && Size() < MAX_BUFFER_SIZE
      modifies this, buf
      ensures Valid() && Kept()
      ensures Data() == bytes + old(Data()) && Scratch() == old(Scratch())
    {
      if |bytes| > 0 {
        PushSmall(bytes);
      }
    }

    method PushSmall(bytes: seq<byte>)
      requires Valid() && Size() < MAX_BUFFER_SIZE && |bytes| > 0
      modifies this, buf
      ensures Valid() && Kept()
      ensures Data() == bytes + old(Data()) && Scratch() == old(Scratch())
    {
      hide Data, Scratch, Overwrite;
      MakeSpace(|bytes|);
      OverwriteFront(Data(), bytes);
      Store(cur, bytes);
    }

    /** Stores bytes just above the scratch area. */
    method StoreScratch(bytes: seq<byte>)
      requires Valid() && buf != null && scratch + |bytes| <= cur
      modifies buf
      ensures Data() == old(Data()) && buf[..scratch + |bytes|] == old(Scratch()) + bytes
    {
      forall i | 0 <= i < |bytes| {
        buf[scratch + i] := bytes[i];
      }
    }

    method ScratchPushSmall(bytes: seq<byte>)
      requires Valid() && Size() < MAX_BUFFER_SIZE && |bytes| > 0
      modifies this, buf
      ensures Valid() && Kept()
      ensures Data() == old(Data()) && Scratch() == old(Scratch()) + bytes
    {
      EnsureSpace(|bytes|);
      StoreScratch(bytes);
      scratch := scratch + |bytes|;
    }

    method Fill(zeroPadBytes: nat)
      requires Valid() && Size() < MAX_BUFFER_SIZE
      modifies this, buf
      ensures Valid() && Kept()
      ensures Data() == Zeros(zeroPadBytes) + old(Data()) && Scratch() == old(Scratch())
    {
      MakeSpace(zeroPadBytes);
      ZeroFront(zeroPadBytes);
    }

    method ZeroFront(count: nat)
      requires Valid() && count <= Size() && (count > 0 ==> buf != null)
      modifies buf
      ensures Data() == Zeros(count) + old(Data())[count..] && Scratch() == old(Scratch())
    {
      var i := 0;
      while i < count
        invariant 0 <= i <= count
        invariant forall j :: cur <= j < cur + i ==> buf[j] == 0
        invariant forall j :: cur + count <= j < reserved ==> buf[j] == old(buf[j])
        invariant forall j :: 0 <= j < scratch ==> buf[j] == old(buf[j])
      {
        buf[cur + i] := 0;
        i := i + 1;
      }
    }

    method FillBig(zeroPadBytes: nat)
      requires Valid() && Size() < MAX_BUFFER_SIZE && zeroPadBytes > 0
      modifies this, buf
      ensures Valid() && Kept()
      ensures Data() == Zeros(zeroPadBytes) + old(Data()) && Scratch() == old(Scratch())
    {
      PushSmall(Zeros(zeroPadBytes));
    }

    method Pop(bytesToRemove: nat)
      requires Valid() && bytesToRemove <= Size()
      modifies this`cur
      ensures Valid() && Data() == old(Data())[bytesToRemove..] && Scratch() == old(Scratch())
    {
      cur := cur + bytesToRemove;
    }

    method ScratchPop(bytesToRemove: nat)
      requires Valid() && bytesToRemove <= ScratchSize()
      modifies this`scratch
      ensures Valid() && Data() == old(Data()) && Scratch() == old(Scratch())[..old(|Scratch()|) - bytesToRemove]
    {
      scratch := scratch - bytesToRemove;
    }
  }

  // ---------------------------------------------------------------- two independent stacks

  /** What an operation does to the vector, whatever the scratch stack holds. */
  ghost function DataStep(data: seq<byte>, op: Op): seq<byte> {
    match op
    case Push(bytes) => bytes + data
    case Fill(zeros) => Zeros(zeros) + data
    case Pop(count) => if count <= |data| then data[count..] else data
    case Clear => []
    case _ => data
  }

  /** What it does to the scratch stack, whatever the vector holds. */
  ghost function ScratchStep(scratch: seq<byte>, op: Op): seq<byte> {
    match op
    case ScratchPush(bytes) => scratch + bytes
    case ScratchPop(count) => if count <= |scratch| then scratch[..|scratch| - count] else scratch
    case Clear => []
    case _ => scratch
  }

  ghost function DataRun(data: seq<byte>, ops: seq<Op>): seq<byte> {
    if ops == [] then data else DataStep(DataRun(data, ops[..|ops| - 1]), ops[|ops| - 1])
  }

  ghost function ScratchRun(scratch: seq<byte>, ops: seq<Op>): seq<byte> {
    if ops == [] then scratch else ScratchStep(ScratchRun(scratch, ops[..|ops| - 1]), ops[|ops| - 1])
  }

  /** Pops ask for no more than is there, and the vector stays below the size limit. */
  ghost predicate Allowed(data: seq<byte>, scratch: seq<byte>, op: Op) {
    && |data| < MAX_BUFFER_SIZE
    && (op.ScratchPush? ==> op.bytes != [])
    && (op.Pop? ==> op.count <= |data|)
    && (op.ScratchPop? ==> op.count <= |scratch|)
  }

  ghost predicate AllAllowed(data: seq<byte>, scratch: seq<byte>, ops: seq<Op>) {
    forall i :: 0 <= i < |ops| ==> Allowed(DataRun(data, ops[..i]), ScratchRun(scratch, ops[..i]), ops[i])
  }

  method Apply(v: VectorDownward, op: Op)
    requires v.Valid() && Allowed(v.Data(), v.Scratch(), op)
    modifies v, v.buf
    ensures v.Valid() && v.Kept()
    ensures v.Data() == DataStep(old(v.Data()), op) && v.Scratch() == ScratchStep(old(v.Scratch()), op)
  {
    match op
    case Push(bytes) => v.Push(bytes);
    case Fill(zeros) => v.Fill(zeros);
    case Pop(count) => v.Pop(count);
    case ScratchPush(bytes) => v.ScratchPushSmall(bytes);
    case ScratchPop(count) => v.ScratchPop(count);
    case Clear => v.Clear();
  }

  /** Every run, however often the memory moves, acts on the two stacks as if they were apart. */
  method Run(v: VectorDownward, ops: seq<Op>)
    requires v.Valid() && AllAllowed(v.Data(), v.Scratch(), ops)
    modifies v, v.buf
    ensures v.Valid() && v.scratch <= v.cur <= v.reserved
    ensures v.Data() == DataRun(old(v.Data()), ops) && v.Scratch() == ScratchRun(old(v.Scratch()), ops)
  {
    hide VectorDownward.Data, VectorDownward.Scratch, DataStep, ScratchStep;
    ghost var data, scratch := v.Data(), v.Scratch();
    var i := 0;
    while i < |ops|
      invariant 0 <= i <= |ops| && v.Valid() && v.Kept()
      invariant v.Data() == DataRun(data, ops[..i]) && v.Scratch() == ScratchRun(scratch, ops[..i])
    {
      assert ops[..i + 1][..i] == ops[..i];
      Apply(v, ops[i]);
      i := i + 1;
    }
    assert ops[..i] == ops;
  }
}
