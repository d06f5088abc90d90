/** Cursor buffers: an owner allocates memory, a view shares its owner's. */
module Buffers {
  import opened Wire

  class Buffer {
    var mem: array<Byte>
    var size: nat
    var msgLength: nat
    var bytesHandled: nat
    var isOwner: bool

    ghost predicate Valid()
      reads this
    {
      bytesHandled <= msgLength <= size && size == mem.Length && msgLength < U32
    }

    constructor Owner(size: nat)
      ensures Valid() && isOwner && fresh(mem)
      ensures this.size == size && msgLength == 0 && bytesHandled == 0
    {
      mem := new Byte[size];
      this.size, msgLength, bytesHandled, isOwner := size, 0, 0, true;
    }

    /** A view has the memory, size and message length of the other buffer and starts unread. */
    constructor View(other: Buffer)
      requires other.Valid()
      ensures Valid() && !isOwner && mem == other.mem
      ensures size == other.size && msgLength == other.msgLength && bytesHandled == 0
    {
      mem, size, msgLength, bytesHandled, isOwner := other.mem, other.size, other.msgLength, 0, false;
    }

    method SetMsgLength(n: nat)
      requires Valid() && n < U32 && bytesHandled <= n <= size
      modifies this`msgLength
      ensures Valid() && msgLength == n
    {
      msgLength := n;
    }

    /** Where the unhandled part begins. */
    function RemainBuffer(): (off: nat)
      requires Valid()
      reads this
      ensures off + RemainSize() == msgLength && off + RemainSize() <= mem.Length
    {
      bytesHandled
    }

    /** The u32 difference; it cannot wrap while the cursor is within the message. */
    function RemainSize(): (n: nat)
      requires Valid()
      reads this
      ensures bytesHandled + n == msgLength
    {
      (msgLength - bytesHandled) % U32
    }

    predicate IsClear()
      reads this
    {
      msgLength == bytesHandled
    }

    /** The u32 addition of a byte count; within the message it cannot wrap. */
    method MarkHandled(n: nat)
      requires Valid() && n <= RemainSize()
      modifies this`bytesHandled
      ensures Valid() && bytesHandled == old(bytesHandled) + n
      ensures RemainSize() == old(RemainSize()) - n
    {
      bytesHandled := (bytesHandled + n) % U32;
    }
  }
}
