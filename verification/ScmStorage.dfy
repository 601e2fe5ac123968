/** The MTD driver over TrustZone storage: byte ranges carried through a block-aligned bounce buffer. */
module ScmStorage {
  import opened Bytes

  const BUFFER_SIZE := 0x4_0000
  const EINVAL := -22

  predicate PowerOfTwo(n: nat) {
    n == 1 || (n > 1 && n % 2 == 0 && PowerOfTwo(n / 2))
  }

  lemma {:induction false} PowersDivide(small: nat, large: nat)
    requires PowerOfTwo(small) && PowerOfTwo(large) && small <= large
    ensures Multiple(large, small)
  {
    if small == 1 {
      DivisionUnique(large, 1, large, 0);
    } else {
      PowersDivide(small / 2, large / 2);
      var q := (large / 2) / (small / 2);
      assert large / 2 == q * (small / 2);
      assert large == q * small;
      DivisionUnique(large, small, q, 0);
    }
  }

  lemma Doubled(n: nat)
    requires PowerOfTwo(n)
    ensures PowerOfTwo(2 * n)
  {
  }

  lemma BufferIsPower()
    ensures PowerOfTwo(BUFFER_SIZE)
  {
    var n := 1;
    while n < BUFFER_SIZE
      invariant PowerOfTwo(n) && n in {1, 2, 4, 8, 0x10, 0x20, 0x40, 0x80, 0x100, 0x200, 0x400, 0x800,
                                       0x1000, 0x2000, 0x4000, 0x8000, 0x1_0000, 0x2_0000, 0x4_0000}
    {
      Doubled(n);
      n := 2 * n;
    }
  }

  lemma BufferHoldsBlocks(block: nat)
    requires PowerOfTwo(block) && block <= BUFFER_SIZE
    ensures Multiple(BUFFER_SIZE, block)
  {
    BufferIsPower();
    PowersDivide(block, BUFFER_SIZE);
  }

  /** A block that starts below a multiple of the block size ends at or below it. */
  lemma BlockFits(start: nat, size: nat, block: nat)
    requires Multiple(start, block) && Multiple(size, block) && start < size
    ensures start + block <= size
  {
    var p, q := start / block, size / block;
    assert start == p * block && size == q * block;
    if q <= p {
      Grows(q, p, block);
    } else {
      Grows(p + 1, q, block);
      assert (p + 1) * block == p * block + block;
    }
  }

  lemma Grows(p: nat, q: nat, block: nat)
    requires p <= q
    ensures p * block <= q * block
  {
    assert (q - p) * block >= 0;
  }

  /** `now` is `before` with `n` bytes of `source`, from `from`, spliced in at `at`, and nothing else. */
  predicate Transferred(now: seq<byte>, before: seq<byte>, at: nat, source: seq<byte>, from: nat, n: nat) {
    at + n <= |before| && from + n <= |source| && now == Splice(before, at, source[from..from + n])
  }

  lemma NothingTransferred(before: seq<byte>, at: nat, source: seq<byte>, from: nat)
    requires at <= |before| && from <= |source|
    ensures Transferred(before, before, at, source, from, 0)
  {
  }

  /** Writing the span from a buffer that held it, or that the data fills, stores just the data. */
  lemma SpanStored(bounce: seq<byte>, disk: seq<byte>, start: nat, command: nat, off: nat, data: seq<byte>)
    requires off + |data| <= command <= |bounce| && start + command <= |disk|
    requires bounce[..command] == disk[start..start + command] || (off == 0 && command == |data|)
    ensures Splice(disk, start, Splice(bounce, off, data)[..command]) == Splice(disk, start + off, data)
  {
    if off == 0 && command == |data| {
      assert Splice(bounce, off, data)[..command] == data;
    } else {
      assert Splice(bounce, off, data)[..command] == Splice(disk[start..start + command], off, data);
      hide Splice;
      SpanPatched(disk, start, command, off, data);
    }
  }

  /** The next chunk, transferred behind the chunks already there, extends the one flat transfer. */
  lemma TransferAdvances(now: seq<byte>, mid: seq<byte>, before: seq<byte>, at: nat, source: seq<byte>, from: nat, done: nat, chunk: nat)
    requires Transferred(mid, before, at, source, from, done)
    requires Transferred(now, mid, at + done, source, from + done, chunk)
    ensures Transferred(now, before, at, source, from, done + chunk)
  {
    assert source[from..from + done] + source[from + done..from + done + chunk] == source[from..from + done + chunk];
  }

  class Storage {
    const block: nat                   // block size in the storage information
    const device: array<byte>          // what TrustZone stores
    const buffer: array<byte>          // the bounce buffer
    var failing: seq<bool>             // which of the coming commands fail; the rest succeed

    ghost predicate Valid()
      reads this
    {
      && PowerOfTwo(block) && block <= BUFFER_SIZE == buffer.Length
      && Multiple(device.Length, block)
      && device != buffer
    }

    /** Registration refuses a zero block size, an empty device and a block larger than the buffer. */
    constructor (block: nat, totalBlocks: nat, device: array<byte>)
      requires PowerOfTwo(block) && 0 < block <= BUFFER_SIZE && device.Length == totalBlocks * block
      ensures Valid() && this.block == block && this.device == device && fresh(buffer)
    {
      DivisionUnique(device.Length, block, totalBlocks, 0);
      this.block, this.device, failing := block, device, [];
      buffer := new byte[BUFFER_SIZE](_ => 0);
    }

    /** Where a block starts on the device. */
    function Offset(lba: nat): nat {
      lba * block
    }

    method Outcome() returns (ret: int)
      modifies `failing
      ensures ret == if old(failing) != [] && old(failing)[0] then -5 else 0
      ensures failing == if old(failing) == [] then [] else old(failing)[1..]
    {
      ret := if failing != [] && failing[0] then -5 else 0;
      failing := if failing == [] then [] else failing[1..];
    }

    /** A command moves `length` bytes between the device and the start of the buffer; a failed one moves nothing. */
    method ReadCommand(lba: nat, length: nat) returns (ret: int)
      requires Valid() && length <= BUFFER_SIZE && Offset(lba) + length <= device.Length
      modifies `failing, buffer
      ensures ret == if old(failing) != [] && old(failing)[0] then -5 else 0
      ensures failing == if old(failing) == [] then [] else old(failing)[1..]
      ensures ret == 0 ==> buffer[..][..length] == device[..][Offset(lba)..Offset(lba) + length]
    {
      ret := Outcome();
      if ret == 0 {
        var start := Offset(lba);
        forall i | 0 <= i < length { buffer[i] := device[start + i]; }
      }
    }

    method WriteCommand(lba: nat, length: nat) returns (ret: int)
      requires Valid() && length <= BUFFER_SIZE && Offset(lba) + length <= device.Length
      modifies `failing, device
      ensures ret == if old(failing) != [] && old(failing)[0] then -5 else 0
      ensures failing == if old(failing) == [] then [] else old(failing)[1..]
      ensures device[..] == if ret == 0 then Splice(old(device[..]), Offset(lba), buffer[..][..length]) else old(device[..])
    {
      ret := Outcome();
      if ret == 0 {
        var start := Offset(lba);
        forall i | 0 <= i < length { device[start + i] := buffer[i]; }
      }
    }

    /** The span one turn of either loop covers: what is moved, and how much is commanded. */
    method Turn(at: nat, len: nat) returns (start: nat, off: nat, lba: nat, chunk: nat, command: nat)
      requires Valid() && 0 < len && at + len <= device.Length
      ensures start + off == at && Offset(lba) == start
      ensures 0 < chunk <= len && off + chunk <= command <= BUFFER_SIZE && start + command <= device.Length
      ensures if off != 0 || len < block then command == block else off == 0 && command == chunk
    {
      start := Down(at, block);
      off := at - start;
      lba := start / block;
      BlockFits(start, device.Length, block);
      if off != 0 || len < block {
        chunk := Min(block - off, len);
        command := block;
      } else {
        chunk := Down(len, block);
        chunk := Min(chunk, BUFFER_SIZE);
        command := chunk;
        BufferHoldsBlocks(block);
      }
    }

    method CopyFromBuffer(off: nat, chunk: nat, buf: array<byte>, at: nat)
      requires off + chunk <= buffer.Length && at + chunk <= buf.Length && buf != buffer
      modifies buf
      ensures buf[..] == Splice(old(buf[..]), at, buffer[..][off..off + chunk])
    {
      forall i | 0 <= i < chunk { buf[at + i] := buffer[off + i]; }
    }

    method CopyToBuffer(off: nat, chunk: nat, buf: array<byte>, at: nat)
      requires off + chunk <= buffer.Length && at + chunk <= buf.Length && buf != buffer
      modifies buffer
      ensures buffer[..] == Splice(old(buffer[..]), off, buf[..][at..at + chunk])
    {
      forall i | 0 <= i < chunk { buffer[off + i] := buf[at + i]; }
    }

    /** The commands ahead are what is left of the given ones. */
    ghost predicate Ahead(given: seq<bool>)
      reads this
    {
      |failing| <= |given| && failing == given[|given| - |failing|..]
    }

    /** One turn of the read loop: the next chunk arrives in `buf`, or the command failed and nothing moved. */
    method ReadTurn(at: nat, len: nat, buf: array<byte>, pos: nat) returns (ret: int, chunk: nat)
      requires Valid() && 0 < len && at + len <= device.Length && pos + len <= buf.Length && buf != buffer && buf != device
      modifies `failing, buffer, buf
      ensures 0 < chunk <= len && Ahead(old(failing))
      ensures (forall i :: 0 <= i < |old(failing)| ==> !old(failing)[i]) ==> ret == 0
      ensures if ret == 0 then Transferred(buf[..], old(buf[..]), pos, device[..], at, chunk) else buf[..] == old(buf[..])
    {
      hide Offset, PowerOfTwo, Multiple, Splice;
      var start, off, lba, command;
      start, off, lba, chunk, command := Turn(at, len);
      ret := ReadCommand(lba, command);
      if ret != 0 { return; }
      SubSlice(buffer[..], 0, command, off, off + chunk);
      SubSlice(device[..], start, start + command, off, off + chunk);
      assert buffer[..][off..off + chunk] == device[..][at..at + chunk];
      CopyFromBuffer(off, chunk, buf, pos);
    }

    /** One turn of the write loop: the next chunk is on the device, or a command failed and nothing changed there. */
    method WriteTurn(at: nat, len: nat, buf: array<byte>, pos: nat) returns (ret: int, chunk: nat)
      requires Valid() && 0 < len && at + len <= device.Length && pos + len <= buf.Length && buf != buffer && buf != device
      modifies `failing, buffer, device
      ensures 0 < chunk <= len && Ahead(old(failing))
      ensures (forall i :: 0 <= i < |old(failing)| ==> !old(failing)[i]) ==> ret == 0
      ensures if ret == 0 then Transferred(device[..], old(device[..]), at, buf[..], pos, chunk) else device[..] == old(device[..])
    {
      hide Offset, PowerOfTwo, Multiple, Transferred;
      var start, off, lba, command;
      start, off, lba, chunk, command := Turn(at, len);
      if off != 0 || len < block {
        ret := ReadCommand(lba, block);
        if ret != 0 { return; }
      }
      ret := Store(start, lba, command, off, chunk, buf, pos);
    }

    /** The chunk goes into the bounce buffer, which holds the span unless the chunk fills it, and the span to the device. */
    method Store(start: nat, lba: nat, command: nat, off: nat, chunk: nat, buf: array<byte>, pos: nat) returns (ret: int)
      requires Valid() && pos + chunk <= buf.Length && buf != buffer && buf != device
      requires off + chunk <= command <= BUFFER_SIZE && start + command <= device.Length && Offset(lba) == start
      requires (off == 0 && command == chunk) || buffer[..][..command] == device[..][start..start + command]
      modifies `failing, buffer, device
      ensures ret == if old(failing) != [] && old(failing)[0] then -5 else 0
      ensures failing == if old(failing) == [] then [] else old(failing)[1..]
      ensures if ret == 0 then Transferred(device[..], old(device[..]), start + off, buf[..], pos, chunk)
              else device[..] == old(device[..])
    {
      hide Offset, PowerOfTwo, Multiple, Splice;
      SpanStored(buffer[..], device[..], start, command, off, buf[..][pos..pos + chunk]);
      CopyToBuffer(off, chunk, buf, pos);
      ret := WriteCommand(lba, command);
    }

    /** `qcom_scm_storage_read`: as many device bytes as `retlen` says have arrived, and nothing else. */
    method Read(from: nat, len: nat, buf: array<byte>) returns (ret: int, retlen: nat)
      requires Valid() && buf.Length >= len && buf != buffer && buf != device
      modifies `failing, buffer, buf
      ensures from + len > device.Length ==> ret == EINVAL && retlen == 0 && buf[..] == old(buf[..])
      ensures from + len <= device.Length ==> retlen <= len && (ret == 0 <==> retlen == len)
      ensures from + len <= device.Length ==> Transferred(buf[..], old(buf[..]), 0, device[..], from, retlen)
      ensures from + len <= device.Length && (forall i :: 0 <= i < |old(failing)| ==> !old(failing)[i]) ==> ret == 0
    {
      hide PowerOfTwo, Multiple, Transferred;
      retlen := 0;
      if from + len > device.Length { return EINVAL, 0; }
      NothingTransferred(buf[..], 0, device[..], from);
      if len == 0 { return 0, 0; }
      while retlen < len
        invariant retlen <= len && Transferred(buf[..], old(buf[..]), 0, device[..], from, retlen)
        invariant Ahead(old(failing))
      {
        ghost var mid, source := buf[..], device[..];
        var chunk;
        ret, chunk := ReadTurn(from + retlen, len - retlen, buf, retlen);
        assert device[..] == source;
        if ret != 0 { return; }
        TransferAdvances(buf[..], mid, old(buf[..]), 0, source, from, retlen, chunk);
        retlen := retlen + chunk;
      }
      ret := 0;
    }

    /** `qcom_scm_storage_write`: as many bytes of `buf` as `retlen` says are on the device, and nothing else. */
    method Write(to: nat, len: nat, buf: array<byte>) returns (ret: int, retlen: nat)
      requires Valid() && buf.Length >= len && buf != buffer && buf != device
      modifies `failing, buffer, device
      ensures to + len > device.Length ==> ret == EINVAL && retlen == 0 && device[..] == old(device[..])
      ensures to + len <= device.Length ==> retlen <= len && (ret == 0 <==> retlen == len)
      ensures to + len <= device.Length ==> Transferred(device[..], old(device[..]), to, buf[..], 0, retlen)
      ensures to + len <= device.Length && (forall i :: 0 <= i < |old(failing)| ==> !old(failing)[i]) ==> ret == 0
    {
      hide PowerOfTwo, Multiple, Transferred;
      retlen := 0;
      if to + len > device.Length { return EINVAL, 0; }
      NothingTransferred(device[..], to, buf[..], 0);
      if len == 0 { return 0, 0; }
      while retlen < len
        invariant retlen <= len && Transferred(device[..], old(device[..]), to, buf[..], 0, retlen)
        invariant Ahead(old(failing))
      {
        ghost var mid, source := device[..], buf[..];
        var chunk;
        ret, chunk := WriteTurn(to + retlen, len - retlen, buf, retlen);
        assert buf[..] == source;
        if ret != 0 { return; }
        TransferAdvances(device[..], mid, old(device[..]), to, source, 0, retlen, chunk);
        retlen := retlen + chunk;
      }
      ret := 0;
    }
  }
}
