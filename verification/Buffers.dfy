/** Byte buffers written in place. */
module Buffers {
  import opened Prelude

  /** `b` with `d` written at `off`. */
  function Patch(b: seq<Byte>, off: nat, d: seq<Byte>): (r: seq<Byte>)
    requires off + |d| <= |b|
    ensures |r| == |b|
    ensures forall k | 0 <= k < |b| :: r[k] == if off <= k < off + |d| then d[k - off] else b[k]
  {
    b[..off] + d + b[off + |d|..]
  }

  /** What a receive's buffer holds once the payload was copied into it: the
      payload as far as both reach, its old contents beyond. */
  function Filled(b: seq<Byte>, bufSize: nat, payload: seq<Byte>): (r: seq<Byte>)
    requires bufSize <= |b|
    ensures |r| == |b|
    ensures forall k | 0 <= k < |b| :: r[k] == if k < |payload| && k < bufSize then payload[k] else b[k]
  {
    Patch(b, 0, payload[..Min(|payload|, bufSize)])
  }

  /** `copy_nonoverlapping` of the first `n` bytes of `data` to `buf + off`. */
  method CopyAt(buf: array<Byte>, off: nat, data: seq<Byte>, n: nat)
    requires n <= |data| && off + n <= buf.Length
    modifies buf
    ensures buf[..] == Patch(old(buf[..]), off, data[..n])
  {
    var i := 0;
    while i < n
      invariant 0 <= i <= n
      invariant forall k | 0 <= k < buf.Length ::
                  buf[k] == if off <= k < off + i then data[k - off] else old(buf[k])
    {
      buf[off + i] := data[i];
      i := i + 1;
    }
  }
}
