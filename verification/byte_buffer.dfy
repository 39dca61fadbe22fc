/** The growable byte buffer of src/buffer.c. A buffer without memory has a size of zero. */
module ByteBuffer {
  import opened Common

  const REALLOC_EXTRA_SIZE: nat := 16

  /** Bytes written over the beginning, with other bytes waiting behind them. */
  lemma Front(moved: seq<Byte>, all: seq<Byte>, txt: seq<Byte>, was: seq<Byte>)
    requires |txt| + |was| <= |moved| && moved[|txt|..|txt| + |was|] == was
    requires all == moved[..0] + txt + moved[|txt|..]
    ensures all[..|txt| + |was|] == txt + was
  {
    assert all == txt + moved[|txt|..];
    assert moved[|txt|..][..|was|] == was;
  }

  class Buffer {
    /** The memory; its length is the size of the buffer. */
    var data: array<Byte>
    var len: nat

    /** Nothing allocated, or the content followed by a terminator. */
    ghost predicate Valid()
      reads this, data
    {
      (data.Length == 0 && len == 0) || (len < data.Length && data[len] == 0)
    }

    ghost function Content(): seq<Byte>
      reads this, data
      requires Valid()
    {
      data[..len]
    }

    /** http2d_buffer_init. */
    constructor ()
      ensures Valid() && Content() == [] && fresh(data)
    {
      data, len := new Byte[0], 0;
    }

    /** realloc_inc_bufsize: the bytes in use keep their places. */
    method Grow(incsize: nat)
      requires len <= data.Length
      modifies this`data
      ensures fresh(data) && data.Length == old(data.Length) + incsize + REALLOC_EXTRA_SIZE + 1
      ensures data[..len] == old(data[..len])
    {
      var grown := new Byte[data.Length + incsize + REALLOC_EXTRA_SIZE + 1](i => 0);
      forall k | 0 <= k < data.Length { grown[k] := data[k]; }
      data := grown;
    }

    /** Makes sure that size more bytes and a terminator fit. */
    method Reserve(size: nat)
      requires len <= data.Length
      modifies this`data
      ensures (data == old(data) || fresh(data)) && len + size < data.Length && data[..len] == old(data[..len])
    {
      var available := data.Length - len;
      if available < size + 1 { Grow(size - available); }
    }

    /** http2d_buffer_add. */
    method Add(txt: seq<Byte>)
      requires Valid()
      modifies this, data
      ensures Valid() && Content() == old(Content()) + txt && (data == old(data) || fresh(data))
    {
      if |txt| <= 0 { return; }
      Reserve(|txt|);
      Copy(data, len, txt);
      len := len + |txt|;
      data[len] := 0;
    }

    /** http2d_buffer_add_buffer. */
    method AddBuffer(second: Buffer)
      requires Valid() && second.Valid() && second != this && second.data != data
      modifies this, data
      ensures Valid() && Content() == old(Content()) + old(second.Content()) && (data == old(data) || fresh(data))
    {
      Add(second.data[..second.len]);
    }

    /** http2d_buffer_prepend: the content moves up, overlapping itself, and the new bytes go before it. */
    method Prepend(txt: seq<Byte>)
      requires Valid()
      modifies this, data
      ensures Valid() && Content() == txt + old(Content()) && (data == old(data) || fresh(data))
    {
      ghost var was := data[..len];
      Reserve(|txt|);
      ShiftUp(data, len, |txt|);
      ghost var moved := data[..];
      Copy(data, 0, txt);
      ghost var all := data[..];
      Front(moved, all, txt, was);
      len := len + |txt|;
      data[len] := 0;
      assert data[..len] == all[..len];
    }

    /** memmove of the first n bytes to a higher place. */
    static method ShiftUp(data: array<Byte>, n: nat, gap: nat)
      requires n + gap <= data.Length
      modifies data
      ensures data[gap..gap + n] == old(data[..n])
    {
      forall k | 0 <= k < n { data[gap + k] := data[k]; }
    }

    /** http2d_buffer_clean. */
    method Clean()
      requires Valid()
      modifies this`len, data
      ensures Valid() && Content() == []
    {
      if data.Length > 0 { data[0] := 0; }
      len := 0;
    }

    /** http2d_buffer_move_to_begin: the first pos bytes are dropped, and the others move down with their
        terminator, overlapping themselves. */
    method MoveToBegin(pos: nat)
      requires Valid()
      modifies this`len, data
      ensures Valid() && Content() == if pos >= |old(Content())| then [] else old(Content())[pos..]
    {
      if pos >= len {
        Clean();
        return;
      }
      ShiftDown(data, len - pos + 1, pos);
      len := len - pos;
    }

    /** memmove of n bytes to the beginning. */
    static method ShiftDown(data: array<Byte>, n: nat, from: nat)
      requires from + n <= data.Length
      modifies data
      ensures forall k :: 0 <= k < n ==> data[k] == old(data[from + k])
    {
      forall k | 0 <= k < n { data[k] := data[from + k]; }
    }

    /** http2d_buffer_swap_buffers. */
    method Swap(second: Buffer)
      modifies this, second
      ensures data == old(second.data) && len == old(second.len)
      ensures second.data == old(data) && second.len == old(len)
    {
      var tmpData, tmpLen := data, len;
      data, len := second.data, second.len;
      second.data, second.len := tmpData, tmpLen;
    }

    /** http2d_buffer_mrproper: the memory is gone. */
    method MrProper()
      modifies this
      ensures Valid() && Content() == [] && fresh(data)
    {
      data := new Byte[0];
      len := 0;
    }
  }
}
