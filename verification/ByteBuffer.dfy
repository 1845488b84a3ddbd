/** The growable byte buffer: `pos` bytes in use of an allocation that grows by reallocation, up to an optional limit. */
module ByteBuffer {
  import opened Bytes

  const PAGE_SIZE: nat := 4096

  class Buffer {
    var buf: array<byte>
    var pos: nat
    // 0 means no limit
    const limit: nat

    ghost predicate Valid()
      reads this
    {
      pos <= buf.Length
    }

    ghost function Contents(): (s: seq<byte>)
      reads this, buf
      requires Valid()
    {
      buf[..pos]
    }

    constructor (size: nat, limit: nat)
      ensures Valid() && fresh(buf) && Contents() == [] && buf.Length == size && this.limit == limit
    {
      buf := new byte[size](_ => 0);
      pos := 0;
      this.limit := limit;
    }

    /** A larger allocation with the same contents. */
    method Resize(newLen: nat)
      requires Valid() && newLen >= buf.Length
      modifies this`buf
      ensures Valid() && fresh(buf) && buf.Length == newLen && Contents() == old(Contents())
    {
      var fresh_ := new byte[newLen](_ => 0);
      for i := 0 to pos
        invariant buf == old(buf) && fresh_[..i] == old(buf[..i])
      {
        assert buf[i] == old(buf[i]);
        fresh_[i] := buf[i];
      }
      buf := fresh_;
    }

    /** Makes room for `len` more bytes, or for fewer when the limit is near; fails only when the limit is reached. */
    method Ensure(len: nat) returns (ok: bool)
      requires Valid() && (limit > 0 ==> buf.Length <= limit)
      modifies this`buf
      ensures Valid() && Contents() == old(Contents()) && (buf == old(buf) || fresh(buf))
      ensures limit > 0 ==> buf.Length <= limit
      ensures ok <==> old(buf.Length) - pos >= len || limit == 0 || old(buf.Length) < limit
      ensures ok && len > 0 ==> buf.Length > pos
      ensures ok && limit == 0 ==> buf.Length - pos >= len
    {
      var remains := buf.Length - pos;
      if remains < len {
        var newLen := buf.Length + (len - remains);
        if limit > 0 && newLen > limit {
          newLen := limit;
          if newLen == buf.Length {
            return false;
          }
        }
        Resize(newLen);
      }
      ok := true;
    }

    method Write(data: seq<byte>)
      requires Valid() && pos + |data| <= buf.Length
      modifies this`pos, buf
      ensures Valid() && buf == old(buf) && Contents() == old(Contents()) + data
    {
      for i := 0 to |data|
        invariant pos == old(pos) && buf == old(buf)
        invariant buf[..pos + i] == old(buf[..pos]) + data[..i]
      {
        buf[pos + i] := data[i];
        assert data[..i + 1] == data[..i] + [data[i]];
      }
      assert data[..|data|] == data;
      pos := pos + |data|;
    }

    /** Appends, growing by at least a page unless only the exact size fits under the limit. */
    method Append(data: seq<byte>) returns (ok: bool)
      requires Valid()
      modifies this`buf, this`pos, buf
      ensures Valid() && (buf == old(buf) || fresh(buf))
      ensures Contents() == if ok then old(Contents()) + data else old(Contents())
      ensures ok <==> |data| <= old(buf.Length - pos) || limit == 0 || old(buf.Length) + |data| <= limit
    {
      var remains := buf.Length - pos;
      if |data| > remains {
        var chunkSize := if |data| > PAGE_SIZE then |data| else PAGE_SIZE;
        if limit > 0 && buf.Length + chunkSize > limit {
          // retry with the minimal size
          if |data| < PAGE_SIZE {
            chunkSize := |data|;
          }
          if buf.Length + chunkSize > limit {
            return false;
          }
        }
        Resize(buf.Length + chunkSize);
      }
      Write(data);
      ok := true;
    }

    /** Drops the first `len` bytes by moving the rest down. */
    method Decapitate(len: nat) returns (ok: bool)
      requires Valid()
      modifies this`pos, buf
      ensures Valid() && buf == old(buf) && (ok <==> len <= old(pos))
      ensures Contents() == if ok then old(Contents()[len..]) else old(Contents())
    {
      if len > pos {
        return false;
      }
      ghost var was := buf[..];
      for i := 0 to pos - len
        invariant pos == old(pos) && buf == old(buf)
        invariant buf[..i] == was[len..len + i] && buf[i + len..] == was[i + len..]
      {
        assert buf[i + len] == was[i + len] by { assert buf[i + len..][0] == was[i + len..][0]; }
        buf[i] := buf[i + len];
        assert was[len..len + i + 1] == was[len..len + i] + [was[len + i]];
        assert buf[i + 1 + len..] == was[i + 1 + len..] by {
          forall j | i + 1 + len <= j < buf.Length ensures buf[j] == was[j] {
            assert was[j] == was[i + len..][j - i - len];
          }
        }
      }
      pos := pos - len;
      ok := true;
    }
  }
}
