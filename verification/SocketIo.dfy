/**
 The socket loops that send or receive a full length.  What the kernel does with each call is
 a script of outcomes.
 */
module SocketIo {

  type Byte = x: int | 0 <= x < 256

  /** What one `send` or `recv` may do: move up to so many bytes (none: the end of the stream),
      be interrupted by a signal, or fail. */
  datatype Outcome = Moved(atMost: nat) | Interrupted | Failed

  /** How a loop ended; `Waiting`: its last call has not returned. */
  datatype End = Complete | Early | Error | Waiting

  function Min(a: nat, b: nat): nat { if a < b then a else b }

  /** How many of `left` bytes a loop moves, when `available` bytes can be moved at all. */
  function Transfer(script: seq<Outcome>, left: nat, available: nat): (nat, End) {
    if left == 0 then (0, Complete)
    else if script == [] then (0, Waiting)
    else
      match script[0]
      case Interrupted => Transfer(script[1..], left, available)
      case Failed => (0, Error)
      case Moved(n) =>
        if n == 0 then (0, Early)
        else if available == 0 then (0, Waiting)
        else
          var k := Min(n, Min(left, available));
          var (rest, end) := Transfer(script[1..], left - k, available - k);
          (k + rest, end)
  }

  function Positive(length: int): nat { if length > 0 then length else 0 }

  /** `my_send`: `wire` is what reaches the stream. */
  method MySend(data: array<Byte>, length: int, script: seq<Outcome>) returns (r: int, end: End, wire: seq<Byte>)
    requires length <= data.Length
    ensures (|wire|, end) == Transfer(script, Positive(length), Positive(length))
    ensures |wire| <= data.Length && wire == data[..|wire|]
    ensures end == Error ==> r == -1
    ensures end == Complete || end == Early ==> r == |wire|
  {
    hide Transfer, Continues;
    var bytesLeft, ptr, used := length, 0, 0;
    wire := [];
    ContinuesAtFirst(script, Positive(length), Positive(length));
    while bytesLeft > 0
      invariant 0 <= used <= |script| && ptr == |wire| <= data.Length && wire == data[..ptr]
      invariant if length > 0 then 0 <= bytesLeft == length - ptr else bytesLeft == length && ptr == 0
      invariant Continues(script, Positive(length), Positive(length), used, ptr)
      decreases bytesLeft, |script| - used
    {
      ContinuesStep(script, Positive(length), Positive(length), used, ptr);
      if used == |script| { return 0, Waiting, wire; }
      var outcome := script[used];
      used := used + 1;
      var bytesWritten;
      match outcome {
        case Interrupted => bytesWritten := 0;
        case Failed => return -1, Error, wire;
        case Moved(n) =>
          bytesWritten := Min(n, bytesLeft);
          if bytesWritten == 0 { return length - bytesLeft, Early, wire; }
      }
      wire := wire + data[ptr..ptr + bytesWritten];
      bytesLeft := bytesLeft - bytesWritten;
      ptr := ptr + bytesWritten;
    }
    ContinuesAtLast(script, Positive(length), Positive(length), used, ptr);
    return length - bytesLeft, Complete, wire;
  }

  /** The first `count` bytes of the buffer have come from the stream, the others stay. */
  predicate Received(now: seq<Byte>, wire: seq<Byte>, was: seq<Byte>, count: nat) {
    count <= |wire| && count <= |was| && now == wire[..count] + was[count..]
  }

  lemma NothingReceived(s: seq<Byte>, wire: seq<Byte>)
    ensures Received(s, wire, s, 0)
  {
  }

  /** What one `recv` writes behind the first `ptr` bytes. */
  method Copy(buf: array<Byte>, wire: seq<Byte>, ptr: nat, count: nat, ghost was: seq<Byte>)
    requires ptr + count <= buf.Length == |was| && ptr + count <= |wire| && Received(buf[..], wire, was, ptr)
    modifies buf
    ensures Received(buf[..], wire, was, ptr + count)
  {
    forall i | ptr <= i < ptr + count { buf[i] := wire[i]; }
  }

  /** `my_recv` from a stream that holds these bytes. */
  method MyRecv(buf: array<Byte>, length: int, script: seq<Outcome>, wire: seq<Byte>)
    returns (r: int, end: End, ghost moved: nat)
    requires length <= buf.Length
    modifies buf
    ensures (moved, end) == Transfer(script, Positive(length), |wire|)
    ensures Received(buf[..], wire, old(buf[..]), moved)
    ensures end == Error ==> r == -1
    ensures end == Complete || end == Early ==> r == moved
  {
    hide Transfer, Continues, Received;
    var bytesLeft, ptr, used := length, 0, 0;
    ContinuesAtFirst(script, Positive(length), |wire|);
    NothingReceived(buf[..], wire);
    while bytesLeft > 0
      invariant 0 <= used <= |script| && ptr <= |wire| && ptr <= buf.Length
      invariant if length > 0 then 0 <= bytesLeft == length - ptr else bytesLeft == length && ptr == 0
      invariant Received(buf[..], wire, old(buf[..]), ptr)
      invariant Continues(script, Positive(length), |wire|, used, ptr)
      decreases bytesLeft, |script| - used
    {
      moved := ptr;
      ContinuesStep(script, Positive(length), |wire|, used, ptr);
      if used == |script| { return 0, Waiting, moved; }
      var outcome := script[used];
      used := used + 1;
      var bytesRead;
      match outcome {
        case Interrupted => bytesRead := 0;
        case Failed => return -1, Error, moved;
        case Moved(n) =>
          if n == 0 { return length - bytesLeft, Early, moved; }
          if ptr == |wire| { return 0, Waiting, moved; }
          bytesRead := Min(n, Min(bytesLeft, |wire| - ptr));
      }
      Copy(buf, wire, ptr, bytesRead, old(buf[..]));
      bytesLeft := bytesLeft - bytesRead;
      ptr := ptr + bytesRead;
    }
    ContinuesAtLast(script, Positive(length), |wire|, used, ptr);
    return length - bytesLeft, Complete, ptr;
  }

  /** After `used` calls and `ptr` bytes the rest of the script does the rest. */
  ghost predicate Continues(script: seq<Outcome>, left: nat, available: nat, used: nat, ptr: nat)
    requires used <= |script|
  {
    && ptr <= left && ptr <= available
    && var (m, e) := Transfer(script[used..], left - ptr, available - ptr);
       Transfer(script, left, available) == (ptr + m, e)
  }

  lemma ContinuesAtFirst(script: seq<Outcome>, left: nat, available: nat)
    ensures Continues(script, left, available, 0, 0)
  {
    assert script[0..] == script;
  }

  lemma ContinuesAtLast(script: seq<Outcome>, left: nat, available: nat, used: nat, ptr: nat)
    requires used <= |script| && Continues(script, left, available, used, ptr) && ptr == left
    ensures Transfer(script, left, available) == (ptr, Complete)
  {
  }

  /** What the next call makes of the transfer. */
  lemma ContinuesStep(script: seq<Outcome>, left: nat, available: nat, used: nat, ptr: nat)
    requires used <= |script| && Continues(script, left, available, used, ptr) && ptr < left
    ensures used == |script| ==> Transfer(script, left, available) == (ptr, Waiting)
    ensures used < |script| ==>
              match script[used]
              case Interrupted => Continues(script, left, available, used + 1, ptr)
              case Failed => Transfer(script, left, available) == (ptr, Error)
              case Moved(n) =>
                if n == 0 then Transfer(script, left, available) == (ptr, Early)
                else if ptr == available then Transfer(script, left, available) == (ptr, Waiting)
                else Continues(script, left, available, used + 1, ptr + Min(n, Min(left - ptr, available - ptr)))
  {
    if used < |script| {
      assert script[used..][1..] == script[used + 1..];
    }
  }

  // ----- what arrives ----------------------------------------------------------------

  /** No failure and no early end. */
  predicate Patient(script: seq<Outcome>) {
    forall i | 0 <= i < |script| :: script[i] != Failed && script[i] != Moved(0)
  }

  /** The bytes that a script can move in all. */
  function Capacity(script: seq<Outcome>): nat {
    if script == [] then 0 else (if script[0].Moved? then script[0].atMost else 0) + Capacity(script[1..])
  }

  /** The position of the first failure or early end, or the length. */
  function Stop(script: seq<Outcome>): (n: nat)
    ensures n <= |script| && (n < |script| ==> script[n] == Failed || script[n] == Moved(0))
    ensures Patient(script[..n])
  {
    if script == [] || script[0] == Failed || script[0] == Moved(0) then 0
    else
      assert script[..1 + Stop(script[1..])] == [script[0]] + script[1..][..Stop(script[1..])];
      1 + Stop(script[1..])
  }

  /** What a loop moves for any script: all that it should, if the kernel is willing to move so
      much before the first failure or early end and so much is there; otherwise whatever is
      less.  When enough is there it then ends as the script says. */
  lemma {:induction false} EndOfTransfer(script: seq<Outcome>, left: nat, available: nat)
    ensures var n, (moved, end) := Stop(script), Transfer(script, left, available);
            var c := Capacity(script[..n]);
            && moved == Min(left, Min(available, c))
            && (left <= available ==>
                  end == if left <= c then Complete else if n == |script| then Waiting
                         else if script[n] == Failed then Error else Early)
  {
    var n := Stop(script);
    if left == 0 || script == [] || n == 0 {
      assert script[..0] == [];
    } else {
      hide Transfer, Capacity, Patient;
      var k := if script[0] == Interrupted then 0 else Min(script[0].atMost, Min(left, available));
      TransferStep(script, left, available);
      if script[0] != Interrupted && available > 0 { MovedStep(script, left, available, k); }
      CapacityStep(script, n);
      EndOfTransfer(script[1..], left - k, available - k);
    }
  }

  lemma TransferStep(script: seq<Outcome>, left: nat, available: nat)
    requires left > 0 && script != []
    ensures script[0] == Interrupted ==> Transfer(script, left, available) == Transfer(script[1..], left, available)
    ensures script[0].Moved? && script[0] != Moved(0) && available == 0 ==>
              Transfer(script, left, available) == (0, Waiting)
  {
  }

  lemma MovedStep(script: seq<Outcome>, left: nat, available: nat, k: nat)
    requires left > 0 && available > 0 && script != [] && script[0].Moved? && script[0] != Moved(0)
    requires k == Min(script[0].atMost, Min(left, available))
    ensures var (rest, end) := Transfer(script[1..], left - k, available - k);
            Transfer(script, left, available) == (k + rest, end)
  {
    hide Min;
  }

  lemma CapacityStep(script: seq<Outcome>, n: nat)
    requires 0 < n <= |script|
    ensures Capacity(script[..n]) ==
            (if script[0].Moved? then script[0].atMost else 0) + Capacity(script[1..][..n - 1])
  {
    assert script[..n][1..] == script[1..][..n - 1];
  }

  /** However it is chunked and interrupted, a loop without failure or early end is complete
      exactly if the kernel was willing to move enough, and then it has moved everything. */
  lemma {:induction false} CompleteIfEnough(script: seq<Outcome>, left: nat, available: nat)
    requires Patient(script) && left <= available
    ensures Transfer(script, left, available).1 == Complete <==> left <= Capacity(script)
    ensures Transfer(script, left, available).1 == Complete ==> Transfer(script, left, available).0 == left
    ensures Transfer(script, left, available).1 != Complete ==>
              Transfer(script, left, available) == (Capacity(script), Waiting)
  {
    if left > 0 && script != [] {
      assert script[0] != Failed && script[0] != Moved(0);
      assert Patient(script[1..]) by {
        forall i | 0 <= i < |script[1..]| ensures script[1..][i] != Failed && script[1..][i] != Moved(0) {
          assert script[1..][i] == script[i + 1];
        }
      }
      var k := if script[0] == Interrupted then 0 else Min(script[0].atMost, Min(left, available));
      CompleteIfEnough(script[1..], left - k, available - k);
    }
  }

  /** In every case the bytes moved are no more than asked for, and all of them only if the loop
      is complete. */
  lemma {:induction false} NeverTooMuch(script: seq<Outcome>, left: nat, available: nat)
    ensures var (moved, end) := Transfer(script, left, available);
            moved <= left && moved <= available && (moved == left <==> end == Complete)
  {
    if left > 0 && script != [] && script[0] == Interrupted {
      NeverTooMuch(script[1..], left, available);
    } else if left > 0 && available > 0 && script != [] && script[0].Moved? && script[0].atMost > 0 {
      var k := Min(script[0].atMost, Min(left, available));
      NeverTooMuch(script[1..], left - k, available - k);
    }
  }

  /** Sending and then receiving the same length delivers exactly the bytes sent. */
  method SendThenReceive(data: array<Byte>, buf: array<Byte>, sending: seq<Outcome>, receiving: seq<Outcome>)
    returns (sent: int, received: int)
    requires data != buf && data.Length == buf.Length
    requires Patient(sending) && Patient(receiving)
    requires data.Length <= Capacity(sending) && data.Length <= Capacity(receiving)
    modifies buf
    ensures sent == received == data.Length && buf[..] == data[..]
  {
    var e, wire;
    ghost var moved;
    sent, e, wire := MySend(data, data.Length, sending);
    CompleteIfEnough(sending, data.Length, data.Length);
    received, e, moved := MyRecv(buf, data.Length, receiving, wire);
    CompleteIfEnough(receiving, data.Length, data.Length);
  }
}
