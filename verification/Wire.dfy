// One direction of a connection, and the loops that move whole buffers over it
// (src/common/net_wrapper.c, lines 105-148).
module Wire {
  import opened Bytes

  function Min(a: nat, b: nat): nat {
    if a < b then a else b
  }

  // One direction of a connection. `content` is what is still to arrive before the peer
  // closes, so that a reader that finds nothing has reached the end; a read that has to
  // wait for the peer is one that takes its time. (Module Conversation looks at who waits
  // for whom.) The kernel may take or give any part of what it is asked for, may
  // interrupt a call, finitely often, and may fail.
  class Pipe {
    var content: seq<byte>
    var interrupts: nat
    var failed: bool

    constructor (interrupts: nat)
      ensures content == [] && this.interrupts == interrupts && !failed
    {
      content, this.interrupts, failed := [], interrupts, false;
    }

    // write(2)
    method Write(buf: seq<byte>) returns (n: int, eintr: bool)
      requires buf != []
      modifies this
      ensures -1 <= n <= |buf| && (eintr ==> n == -1)
      ensures n > 0 ==> content == old(content) + buf[..n] && failed == old(failed) && interrupts == old(interrupts)
      ensures n <= 0 ==> content == old(content)
      ensures eintr ==> interrupts < old(interrupts) && failed == old(failed)
      ensures n <= 0 && !eintr ==> failed
    {
      if
      case true =>
        n :| 1 <= n <= |buf|;
        eintr, content := false, content + buf[..n];
      case interrupts > 0 =>
        n, eintr, interrupts := -1, true, interrupts - 1;
      case true =>
        n :| -1 <= n <= 0;
        eintr, failed := false, true;
    }

    // read(2), into buf from index `at`
    method Read(buf: array<byte>, at: nat, max: nat) returns (n: int, eintr: bool)
      requires 0 < max && at + max <= buf.Length
      modifies this, buf
      ensures -1 <= n <= max && (eintr ==> n == -1)
      ensures n >= 0 ==>
                && n <= |old(content)| && content == old(content)[n..] && failed == old(failed) && interrupts == old(interrupts)
                && buf[at..at + n] == old(content)[..n]
                && buf[..at] == old(buf[..at]) && buf[at + n..] == old(buf[at + n..])
      ensures n == 0 ==> old(content) == []
      ensures n == -1 ==> content == old(content) && buf[..] == old(buf[..])
      ensures eintr ==> interrupts < old(interrupts) && failed == old(failed)
      ensures n == -1 && !eintr ==> failed
    {
      if
      case content != [] =>
        n :| 1 <= n <= max && n <= |content|;
        eintr := false;
        forall i | 0 <= i < n {
          buf[at + i] := content[i];
        }
        content := content[n..];
      case content == [] =>
        n, eintr := 0, false;
      case interrupts > 0 =>
        n, eintr, interrupts := -1, true, interrupts - 1;
      case true =>
        n, eintr, failed := -1, false, true;
    }
  }

  // Sends all of buf, whatever the kernel takes at a time; -1 on failure, when a proper
  // prefix has gone out.
  method SendN(p: Pipe, buf: seq<byte>) returns (r: int)
    modifies p
    ensures r == |buf| || r == -1
    ensures r != -1 ==> p.content == old(p.content) + buf && p.failed == old(p.failed)
    ensures r == -1 ==> p.failed && exists k :: 0 <= k < |buf| && p.content == old(p.content) + buf[..k]
  {
    var nleft: nat := |buf|;
    var ptr: nat := 0;
    assert buf[..0] == [];
    while nleft > 0
      invariant ptr + nleft == |buf|
      invariant p.content == old(p.content) + buf[..ptr] && p.failed == old(p.failed)
      decreases nleft, p.interrupts
    {
      var nwritten, eintr := p.Write(buf[ptr..]);
      if nwritten <= 0 {
        if nwritten < 0 && eintr {
          nwritten := 0;
        } else {
          return -1;
        }
      }
      assert buf[..ptr] + buf[ptr..][..nwritten] == buf[..ptr + nwritten];
      nleft := nleft - nwritten;
      ptr := ptr + nwritten;
    }
    assert buf[..|buf|] == buf;
    return |buf|;
  }

  // Receives n bytes, however they arrive: exactly n unless the stream ends first, in
  // which case all there is; -1 on failure. The rest of the buffer keeps its old bytes.
  method RecvN(p: Pipe, buf: array<byte>, n: nat) returns (r: int)
    requires n <= buf.Length
    modifies p, buf
    ensures r == -1 || r == Min(n, |old(p.content)|)
    ensures r != -1 ==>
              && buf[..r] == old(p.content)[..r] && buf[r..] == old(buf[r..])
              && p.content == old(p.content)[r..] && p.failed == old(p.failed)
    ensures r == -1 ==> p.failed
  {
    var nleft: nat := n;
    var ptr: nat := 0;
    ghost var input, stale := p.content, buf[..];
    while nleft > 0
      invariant ptr + nleft == n && ptr <= |input|
      invariant p.content == input[ptr..] && p.failed == old(p.failed)
      invariant buf[..ptr] == input[..ptr] && buf[ptr..] == stale[ptr..]
      decreases nleft, p.interrupts
    {
      ghost var before := buf[..];
      var nread, eintr := p.Read(buf, ptr, nleft);
      if nread < 0 {
        if eintr {
          nread := 0;
        } else {
          return -1;
        }
      } else if nread == 0 {
        break;
      }
      if nread > 0 {
        assert buf[..ptr + nread] == buf[..ptr] + buf[ptr..ptr + nread];
        assert input[..ptr + nread] == input[..ptr] + input[ptr..][..nread];
        assert buf[ptr + nread..] == before[ptr..][nread..];
      } else {
        assert buf[..] == before;
      }
      nleft := nleft - nread;
      ptr := ptr + nread;
    }
    return n - nleft;
  }
}
