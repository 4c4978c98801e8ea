/**
 `getentropy`, `arc4random_buf`, `arc4random` and `arc4random_uniform` over a random device whose reads may be
 short, interrupted, or fail.
 */
module EntropyFill {
  import opened UniformDraw

  type byte = x: int | 0 <= x < 0x100

  /** What a read does: deliver at most `more + 1` bytes, be interrupted by a signal, find the end, or fail. */
  datatype Outcome = Short(more: nat) | Interrupted | EndOfFile | HardError

  /** What a read asked for `len` bytes returns. */
  function ReadResult(o: Outcome, len: nat): int {
    match o
    case Short(more) => if more < len then more + 1 else len
    case EndOfFile => 0
    case _ => -1
  }

  /** What the next reads and opens will do, and how many bytes have been handed out. */
  datatype Device = Device(outcomes: seq<Outcome>, opens: seq<bool>, pos: nat)

  /** Short reads and signals are all that goes wrong. */
  predicate Benign(d: Device) {
    (forall o | o in d.outcomes :: o.Short? || o.Interrupted?) && forall ok | ok in d.opens :: ok
  }

  /** Reading `left` bytes in a loop: the outcomes that remain, the bytes got, and whether these are all. */
  function ReadLoop(outcomes: seq<Outcome>, left: nat): (r: (seq<Outcome>, nat, bool))
    ensures r.1 <= left && (r.2 <==> r.1 == left)
    decreases |outcomes|
  {
    if left == 0 then (outcomes, 0, true)
    else if outcomes == [] then ([], left, true)
    else
      var n := ReadResult(outcomes[0], left);
      if n > 0 then
        var more := ReadLoop(outcomes[1..], left - n);
        (more.0, n + more.1, more.2)
      else if outcomes[0].Interrupted? then ReadLoop(outcomes[1..], left)
      else (outcomes[1..], 0, false)
  }

  predicate Opens(opens: seq<bool>) {
    opens == [] || opens[0]
  }

  /** `getentropy`: the device afterwards, the bytes got, and success. */
  function Fetched(d: Device, len: nat): (r: (Device, nat, bool))
    ensures r.1 <= len && r.0.pos == d.pos + r.1
    ensures r.2 <==> len <= CHUNK && Opens(d.opens) && r.1 == len
  {
    if len > CHUNK then (d, 0, false)
    else
      var after := d.(opens := if d.opens == [] then [] else d.opens[1..]);
      if !Opens(d.opens) then (after, 0, false)
      else
        var r := ReadLoop(d.outcomes, len);
        (after.(outcomes := r.0, pos := d.pos + r.1), r.1, r.2)
  }

  /** `arc4random_buf`: the device afterwards, and the bytes got. */
  function Filled(d: Device, len: nat): (r: (Device, nat))
    ensures r.1 <= len && r.0.pos == d.pos + r.1
    decreases len
  {
    if len == 0 then (d, 0)
    else
      var chunk := if len > CHUNK then CHUNK else len;
      var f := Fetched(d, chunk);
      if !f.2 then (f.0, f.1)
      else
        var more := Filled(f.0, len - chunk);
        (more.0, chunk + more.1)
  }

  /**
   The random device. `source` is the stream of bytes that it hands out, of which `pos` have been handed out.
   The scripts say what the next opens and reads do; when they are used up, everything succeeds in full.
   */
  class Urandom {
    const source: nat -> byte
    var pos: nat
    var readScript: seq<Outcome>
    var openScript: seq<bool>
    var openCount: nat
    var closeCount: nat
    var requests: seq<nat>

    constructor (source: nat -> byte, readScript: seq<Outcome>, openScript: seq<bool>)
      ensures this.source == source && this.readScript == readScript && this.openScript == openScript
      ensures pos == 0 && openCount == 0 && closeCount == 0 && requests == []
    {
      this.source, this.readScript, this.openScript := source, readScript, openScript;
      pos, openCount, closeCount, requests := 0, 0, 0, [];
    }

    function State(): Device
      reads this
    {
      Device(readScript, openScript, pos)
    }

    method Open() returns (ok: bool)
      modifies this`openScript, this`openCount
      ensures ok == (old(openScript) == [] || old(openScript)[0])
      ensures openScript == if old(openScript) == [] then [] else old(openScript)[1..]
      ensures openCount == old(openCount) + if ok then 1 else 0
    {
      ok := openScript == [] || openScript[0];
      openScript := if openScript == [] then [] else openScript[1..];
      openCount := openCount + if ok then 1 else 0;
    }

    method Close()
      modifies this`closeCount
      ensures closeCount == old(closeCount) + 1
    {
      closeCount := closeCount + 1;
    }

    method Read(buf: array<byte>, off: nat, len: nat) returns (n: int, eintr: bool)
      requires 0 < len && off + len <= buf.Length
      modifies this`pos, this`readScript, this`requests, buf
      ensures n == if old(readScript) == [] then len else ReadResult(old(readScript)[0], len)
      ensures -1 <= n <= len
      ensures eintr <==> old(readScript) != [] && old(readScript)[0].Interrupted?
      ensures readScript == if old(readScript) == [] then [] else old(readScript)[1..]
      ensures pos == old(pos) + if n > 0 then n else 0
      ensures var got := if n > 0 then n else 0;
              Holds(buf[..], off, got, source, old(pos)) && SameOutside(buf[..], old(buf[..]), off, got)
      ensures requests == old(requests) + [len]
    {
      n := if readScript == [] then len else ReadResult(readScript[0], len);
      eintr := readScript != [] && readScript[0].Interrupted?;
      readScript := if readScript == [] then [] else readScript[1..];
      requests := requests + [len];
      forall i | off <= i < off + n {
        buf[i] := source(pos + (i - off));
      }
      pos := pos + if n > 0 then n else 0;
    }
  }

  /** `got` bytes of the device, from its position `p` on, lie in `bytes` from `off` on. */
  ghost predicate Holds(bytes: seq<byte>, off: nat, got: nat, source: nat -> byte, p: nat) {
    off + got <= |bytes| && forall i | off <= i < off + got :: bytes[i] == source(p + (i - off))
  }

  /** The two contents differ at most inside `[off, off + len)`. */
  ghost predicate SameOutside(a: seq<byte>, b: seq<byte>, off: nat, len: nat) {
    |a| == |b| && forall i | 0 <= i < |a| && !(off <= i < off + len) :: a[i] == b[i]
  }

  const CHUNK := 256

  lemma {:induction false} LoopDone(outcomes: seq<Outcome>)
    ensures ReadLoop(outcomes, 0) == (outcomes, 0, true)
  {
  }

  /** One round of the read loop. */
  lemma {:induction false} LoopStep(outcomes: seq<Outcome>, left: nat)
    requires left > 0
    ensures var n := if outcomes == [] then left else ReadResult(outcomes[0], left);
            var rest := if outcomes == [] then [] else outcomes[1..];
            && (n > 0 ==> var more := ReadLoop(rest, left - n); ReadLoop(outcomes, left) == (more.0, n + more.1, more.2))
            && (n <= 0 && outcomes[0].Interrupted? ==> n == -1 && ReadLoop(outcomes, left) == ReadLoop(rest, left))
            && (n <= 0 && !outcomes[0].Interrupted? ==> ReadLoop(outcomes, left) == (rest, 0, false))
  {
  }

  lemma {:induction false} FetchedCases(d: Device, len: nat)
    ensures len > CHUNK ==> Fetched(d, len) == (d, 0, false)
    ensures len <= CHUNK ==>
              var after := d.(opens := if d.opens == [] then [] else d.opens[1..]);
              var r := ReadLoop(d.outcomes, len);
              Fetched(d, len) == if Opens(d.opens) then (after.(outcomes := r.0, pos := d.pos + r.1), r.1, r.2)
                                 else (after, 0, false)
  {
    hide ReadLoop;
  }

  lemma {:induction false} FillStep(d: Device, len: nat)
    requires len > 0
    ensures var chunk := if len > CHUNK then CHUNK else len;
            var f := Fetched(d, chunk);
            && (!f.2 ==> Filled(d, len) == (f.0, f.1))
            && (f.2 ==> var more := Filled(f.0, len - chunk); Filled(d, len) == (more.0, chunk + more.1))
  {
    hide Fetched;
  }

  lemma {:induction false} FillDone(d: Device)
    ensures Filled(d, 0) == (d, 0)
  {
  }

  /** Bytes filled in a row, the second ones behind the first. */
  lemma {:induction false} HoldsOn(before: seq<byte>, bytes: seq<byte>, off: nat, done: nat, got: nat, source: nat -> byte, p: nat)
    requires Holds(before, off, done, source, p) && Holds(bytes, off + done, got, source, p + done)
    requires SameOutside(bytes, before, off + done, got)
    ensures Holds(bytes, off, done + got, source, p)
  {
    forall i | off <= i < off + done + got
      ensures bytes[i] == source(p + (i - off))
    {
      assert i < off + done ==> bytes[i] == before[i];
    }
  }

  lemma {:induction false} OutsideOn(first: seq<byte>, before: seq<byte>, bytes: seq<byte>, off: nat, done: nat, got: nat)
    requires SameOutside(before, first, off, done) && SameOutside(bytes, before, off + done, got)
    ensures SameOutside(bytes, first, off, done + got)
  {
    forall i | 0 <= i < |bytes| && !(off <= i < off + (done + got))
      ensures bytes[i] == first[i]
    {
      assert bytes[i] == before[i];
    }
  }

  /**
   `getentropy`: it succeeds iff at most 256 bytes are asked for, the device opens, and all of them are read;
   otherwise a prefix is filled. No read asks for more than 256 bytes, and every opened device is closed again.
   */
  method GetEntropy(dev: Urandom, buf: array<byte>, off: nat, len: nat) returns (ret: int, ghost got: nat)
    requires off + len <= buf.Length
    modifies dev, buf
    ensures Fetched(old(dev.State()), len) == (dev.State(), got, ret == 0)
    ensures (ret == 0 || ret == -1) && got <= len && (ret == 0 <==> len <= CHUNK && Opens(old(dev.openScript)) && got == len)
    ensures dev.pos == old(dev.pos) + got && Holds(buf[..], off, got, dev.source, old(dev.pos))
    ensures SameOutside(buf[..], old(buf[..]), off, got)
    ensures dev.openCount - dev.closeCount == old(dev.openCount) - old(dev.closeCount)
    ensures forall r | r in dev.requests :: r in old(dev.requests) || r <= CHUNK
    ensures ret == 0 ==> dev.openCount == old(dev.openCount) + 1
  {
    hide ReadLoop, Fetched, Holds, SameOutside;
    ghost var d, bytes := dev.State(), buf[..];
    FetchedCases(d, len);
    NothingFilled(bytes, off, dev.source, dev.pos);
    got := 0;
    if len > CHUNK {
      return -1, 0;
    }
    var ok := dev.Open();
    if !ok {
      return -1, 0;
    }
    ghost var all := ReadLoop(dev.readScript, len);
    var total := 0;
    while total < len
      invariant total <= len
      invariant var more := ReadLoop(dev.readScript, len - total); all == (more.0, total + more.1, more.2)
      invariant dev.openScript == if d.opens == [] then [] else d.opens[1..]
      invariant dev.pos == d.pos + total && Holds(buf[..], off, total, dev.source, d.pos)
      invariant SameOutside(buf[..], bytes, off, total)
      invariant dev.openCount == old(dev.openCount) + 1 && dev.closeCount == old(dev.closeCount)
      invariant forall r | r in dev.requests :: r in old(dev.requests) || r <= CHUNK
      decreases |dev.readScript|, len - total
    {
      LoopStep(dev.readScript, len - total);
      ghost var before := buf[..];
      var n, eintr := dev.Read(buf, off + total, len - total);
      HoldsOn(before, buf[..], off, total, if n > 0 then n else 0, dev.source, d.pos);
      OutsideOn(bytes, before, buf[..], off, total, if n > 0 then n else 0);
      if n <= 0 {
        if n < 0 && eintr {
          continue;
        }
        dev.Close();
        return -1, total;
      }
      total := total + n;
    }
    LoopDone(dev.readScript);
    dev.Close();
    return 0, total;
  }

  /** How many calls of at most 256 bytes it takes: `len / 256`, rounded up. */
  function CallsFor(len: nat): nat {
    (len + CHUNK - 1) / CHUNK
  }

  /**
   `arc4random_buf`: every byte that is filled comes from the device, in order, and nothing else is touched. The
   whole buffer is filled by the fewest possible calls; or, after a hard error, a prefix of whole chunks and what
   was read of the next one.
   */
  method Arc4RandomBuf(dev: Urandom, buf: array<byte>, off: nat, len: nat) returns (ghost done: nat, ghost got: nat)
    requires off + len <= buf.Length
    modifies dev, buf
    ensures Filled(old(dev.State()), len) == (dev.State(), got)
    ensures done <= got <= len && (done == len || (done % CHUNK == 0 && got <= done + CHUNK))
    ensures dev.pos == old(dev.pos) + got && Holds(buf[..], off, got, dev.source, old(dev.pos))
    ensures SameOutside(buf[..], old(buf[..]), off, got)
    ensures dev.openCount - dev.closeCount == old(dev.openCount) - old(dev.closeCount)
    ensures forall r | r in dev.requests :: r in old(dev.requests) || r <= CHUNK
    ensures done == len ==> dev.openCount == old(dev.openCount) + CallsFor(len)
  {
    hide Fetched, Filled, Holds, SameOutside, CallsFor;
    var p, left := off, len;
    done, got := 0, 0;
    NoCalls();
    NothingFilled(buf[..], off, dev.source, dev.pos);
    while left > 0
      invariant done <= len && p == off + done && left == len - done
      invariant done == len || done % CHUNK == 0
      invariant got == done
      invariant var more := Filled(dev.State(), left); Filled(old(dev.State()), len) == (more.0, done + more.1)
      invariant dev.pos == old(dev.pos) + done && Holds(buf[..], off, done, dev.source, old(dev.pos))
      invariant SameOutside(buf[..], old(buf[..]), off, done)
      invariant dev.openCount - dev.closeCount == old(dev.openCount) - old(dev.closeCount)
      invariant forall r | r in dev.requests :: r in old(dev.requests) || r <= CHUNK
      invariant dev.openCount == old(dev.openCount) + CallsFor(done)
    {
      var chunk := if left > CHUNK then CHUNK else left;
      ghost var before := buf[..];
      CallsStep(done, chunk);
      FillStep(dev.State(), left);
      var ret, read := GetEntropy(dev, buf, p, chunk);
      HoldsOn(before, buf[..], off, done, read, dev.source, old(dev.pos));
      OutsideOn(old(buf[..]), before, buf[..], off, done, read);
      got := done + read;
      if ret != 0 {
        return;
      }
      p := p + chunk;
      left := left - chunk;
      done := done + chunk;
    }
    FillDone(dev.State());
  }

  lemma {:induction false} NoCalls()
    ensures CallsFor(0) == 0
  {
  }

  lemma {:induction false} CallsStep(done: nat, chunk: nat)
    requires done % CHUNK == 0 && 0 < chunk <= CHUNK
    ensures CallsFor(done + chunk) == CallsFor(done) + 1 && (chunk == CHUNK ==> (done + chunk) % CHUNK == 0)
  {
  }

  lemma {:induction false} NothingFilled(bytes: seq<byte>, off: nat, source: nat -> byte, p: nat)
    requires off <= |bytes|
    ensures Holds(bytes, off, 0, source, p) && SameOutside(bytes, bytes, off, 0)
  {
  }

  /** The word of four bytes, least significant first. */
  function WordOf(bytes: nat -> byte): uint32 {
    bytes(0) as int + 0x100 * bytes(1) as int + 0x1_0000 * bytes(2) as int + 0x100_0000 * bytes(3) as int
  }

  /** The bytes of a draw: as many as were got from the device, and behind them what the memory held before. */
  function DrawnBytes(d: Device, source: nat -> byte, stale: nat -> byte): nat -> byte {
    (i: nat) => if i < Filled(d, 4).1 then source(d.pos + i) else stale(i)
  }

  /** `arc4random`, on a little-endian machine; `stale` is what the uninitialised word holds. */
  method Arc4Random(dev: Urandom, stale: nat -> byte) returns (r: uint32)
    modifies dev
    ensures dev.State() == Filled(old(dev.State()), 4).0
    ensures r == WordOf(DrawnBytes(old(dev.State()), dev.source, stale))
  {
    var buf := new byte[4](i => stale(i));
    ghost var done, got := Arc4RandomBuf(dev, buf, 0, 4);
    r := buf[0] as int + 0x100 * buf[1] as int + 0x1_0000 * buf[2] as int + 0x100_0000 * buf[3] as int;
    assert forall i | 0 <= i < 4 :: buf[..][i] == DrawnBytes(old(dev.State()), dev.source, stale)(i);
  }

  /** The device after `j` draws. */
  function After(d: Device, j: nat): Device {
    if j == 0 then d else Filled(After(d, j - 1), 4).0
  }

  function StaleAt(stale: nat -> byte, j: nat): nat -> byte {
    (i: nat) => stale(4 * j + i)
  }

  /** Draw number `j`. */
  function Draw(d: Device, source: nat -> byte, stale: nat -> byte, j: nat): uint32 {
    WordOf(DrawnBytes(After(d, j), source, StaleAt(stale, j)))
  }

  /** Draw `j` is the first one that is at least `min`. */
  ghost predicate FirstAtLeast(d: Device, source: nat -> byte, stale: nat -> byte, min: int, j: nat) {
    Draw(d, source, stale, j) >= min && forall i | 0 <= i < j :: Draw(d, source, stale, i) < min
  }

  /** Redraws until a draw is at least `min`; draw `k` is one that ends the loop at the latest. */
  method DrawAtLeast(dev: Urandom, stale: nat -> byte, min: uint32, ghost k: nat) returns (r: uint32, ghost j: nat)
    requires Draw(dev.State(), dev.source, stale, k) >= min
    modifies dev
    ensures FirstAtLeast(old(dev.State()), dev.source, stale, min, j)
    ensures r == Draw(old(dev.State()), dev.source, stale, j) && dev.State() == After(old(dev.State()), j + 1)
  {
    hide WordOf, DrawnBytes, Filled;
    ghost var d := dev.State();
    var n := 0;
    j := 0;
    r := Arc4Random(dev, StaleAt(stale, 0));
    while r < min
      invariant dev.State() == After(d, j + 1) && j == n <= k
      invariant r == Draw(d, dev.source, stale, j)
      invariant forall i | 0 <= i < j :: Draw(d, dev.source, stale, i) < min
      decreases k - j
    {
      n := n + 1;
      r := Arc4Random(dev, StaleAt(stale, n));
      j := j + 1;
    }
  }

  /** `arc4random_uniform`: the first accepted draw, reduced. */
  method Arc4RandomUniform(dev: Urandom, stale: nat -> byte, upper: uint32, ghost k: nat)
      returns (result: uint32, ghost j: nat)
    requires upper >= 2 ==> Accepted(upper, Draw(dev.State(), dev.source, stale, k))
    modifies dev
    ensures upper < 2 ==> result == 0 && dev.State() == old(dev.State())
    ensures upper >= 2 ==>
              && Accepted(upper, Draw(old(dev.State()), dev.source, stale, j))
              && (forall i | 0 <= i < j :: !Accepted(upper, Draw(old(dev.State()), dev.source, stale, i)))
              && result == Draw(old(dev.State()), dev.source, stale, j) % upper
              && result < upper && dev.State() == After(old(dev.State()), j + 1)
  {
    if upper < 2 {
      return 0, 0;
    }
    var r: uint32;
    r, j := DrawAtLeast(dev, stale, (TWO32 - upper) % TWO32 % upper, k);
    return r % upper, j;
  }

  // ---- Short reads and signals do no harm ----

  lemma {:induction false} BenignReads(outcomes: seq<Outcome>, left: nat)
    requires forall o | o in outcomes :: o.Short? || o.Interrupted?
    ensures var r := ReadLoop(outcomes, left); r.1 == left && forall o | o in r.0 :: o in outcomes
    decreases |outcomes|
  {
    if left > 0 && outcomes != [] {
      assert outcomes[0] in outcomes && forall o | o in outcomes[1..] :: o in outcomes;
      var n := ReadResult(outcomes[0], left);
      BenignReads(outcomes[1..], if n > 0 then left - n else left);
    }
  }

  lemma {:induction false} BenignFetched(d: Device, len: nat)
    requires Benign(d) && len <= CHUNK
    ensures var r := Fetched(d, len); Benign(r.0) && r.1 == len && r.2
  {
    BenignReads(d.outcomes, len);
    assert d.opens == [] || (d.opens[0] in d.opens && forall ok | ok in d.opens[1..] :: ok in d.opens);
  }

  /** However reads are cut short and interrupted, every buffer is filled, and the device stays as good. */
  lemma {:induction false} BenignFilled(d: Device, len: nat)
    requires Benign(d)
    ensures var r := Filled(d, len); Benign(r.0) && r.1 == len
    decreases len
  {
    hide Benign;
    if len > 0 {
      var chunk := if len > CHUNK then CHUNK else len;
      BenignFetched(d, chunk);
      BenignFilled(Fetched(d, chunk).0, len - chunk);
    }
  }

  lemma {:induction false} BenignAfter(d: Device, j: nat)
    requires Benign(d)
    ensures Benign(After(d, j)) && After(d, j).pos == d.pos + 4 * j
  {
    hide Benign, Filled;
    if j > 0 {
      BenignAfter(d, j - 1);
      BenignFilled(After(d, j - 1), 4);
    }
  }

  /** Then the draws are the device's bytes, four by four, and no stale byte is used. */
  lemma {:induction false} BenignDraw(d: Device, source: nat -> byte, stale: nat -> byte, j: nat)
    requires Benign(d)
    ensures Draw(d, source, stale, j) == WordOf((i: nat) => source(d.pos + 4 * j + i))
  {
    hide Benign, Filled, After;
    BenignAfter(d, j);
    BenignFilled(After(d, j), 4);
  }

  // ---- Words and bytes, in plain numbers ----

  lemma {:induction false} LowByte(w: nat, b: byte, rest: nat)
    requires w == b + 0x100 * rest
    ensures w % 0x100 == b && w / 0x100 == rest
  {
  }

  /** A word holds its four bytes, least significant first. */
  lemma {:induction false} WordHoldsBytes(bytes: nat -> byte)
    ensures WordOf(bytes) % 256 == bytes(0)
    ensures WordOf(bytes) / 256 % 256 == bytes(1)
    ensures WordOf(bytes) / 65536 % 256 == bytes(2)
    ensures WordOf(bytes) / 16777216 == bytes(3)
  {
    WordDigits(WordOf(bytes), bytes(0), bytes(1), bytes(2), bytes(3));
  }

  lemma {:induction false} WordDigits(w: nat, a: byte, b: byte, c: byte, d: byte)
    requires w == a + 0x100 * b + 0x1_0000 * c + 0x100_0000 * d
    ensures w % 256 == a && w / 256 % 256 == b && w / 65536 % 256 == c && w / 16777216 == d
  {
    var z: nat := d;
    var y := c + 0x100 * z;
    var x := b + 0x100 * y;
    LowByte(w, a, x);
    LowByte(x, b, y);
    LowByte(y, c, z);
    DivTwice(w);
    DivThrice(w);
  }

  /** Different bytes give different words. */
  lemma {:induction false} SameWordIff(a: nat -> byte, b: nat -> byte)
    ensures WordOf(a) == WordOf(b) <==> a(0) == b(0) && a(1) == b(1) && a(2) == b(2) && a(3) == b(3)
  {
    hide WordOf;
    WordHoldsBytes(a);
    WordHoldsBytes(b);
    if a(0) == b(0) && a(1) == b(1) && a(2) == b(2) && a(3) == b(3) {
      SameWord(a, b);
    }
  }

  lemma {:induction false} SameWord(a: nat -> byte, b: nat -> byte)
    requires a(0) == b(0) && a(1) == b(1) && a(2) == b(2) && a(3) == b(3)
    ensures WordOf(a) == WordOf(b)
  {
  }

  function BytesOf(w: uint32): nat -> byte {
    (i: nat) =>
      if i == 0 then w % 256 else if i == 1 then w / 256 % 256 else if i == 2 then w / 65536 % 256 else w / 16777216 % 256
  }

  /** Every word comes from exactly one quadruple of bytes, so uniform bytes make uniform words. */
  lemma {:induction false} EveryWordOnce(w: uint32)
    ensures WordOf(BytesOf(w)) == w
    ensures forall bytes: nat -> byte | WordOf(bytes) == w ::
              bytes(0) == BytesOf(w)(0) && bytes(1) == BytesOf(w)(1) && bytes(2) == BytesOf(w)(2) && bytes(3) == BytesOf(w)(3)
  {
    WordOfBytes(w);
    forall bytes: nat -> byte | WordOf(bytes) == w
      ensures bytes(0) == BytesOf(w)(0) && bytes(1) == BytesOf(w)(1) && bytes(2) == BytesOf(w)(2) && bytes(3) == BytesOf(w)(3)
    {
      SameWordIff(bytes, BytesOf(w));
    }
  }

  lemma {:induction false} DivTwice(x: nat)
    ensures x / 65536 == x / 256 / 256
  {
  }

  lemma {:induction false} DivThrice(x: nat)
    ensures x / 16777216 == x / 65536 / 256
  {
  }

  lemma {:induction false} FourDigits(w: nat, x: nat, y: nat, z: nat)
    requires x == w / 256 && y == x / 256 && z == y / 256 && w < 0x1_0000_0000
    ensures w == w % 256 + 0x100 * (x % 256) + 0x1_0000 * (y % 256) + 0x100_0000 * z && z % 256 == z
  {
    assert w == w % 256 + 256 * x && x == x % 256 + 256 * y && y == y % 256 + 256 * z;
  }

  lemma {:induction false} WordOfBytes(w: uint32)
    ensures WordOf(BytesOf(w)) == w
  {
    DivTwice(w);
    DivThrice(w);
    FourDigits(w, w / 256, w / 65536, w / 16777216);
  }

  /** The bytes of any draw: those got from the device, and behind them what the uninitialised word held. */
  lemma {:induction false} DrawHoldsBytes(d: Device, source: nat -> byte, stale: nat -> byte, j: nat)
    ensures var r, at := Draw(d, source, stale, j), After(d, j);
            && r % 256 == (if 0 < Filled(at, 4).1 then source(at.pos) else stale(4 * j))
            && r / 256 % 256 == (if 1 < Filled(at, 4).1 then source(at.pos + 1) else stale(4 * j + 1))
            && r / 65536 % 256 == (if 2 < Filled(at, 4).1 then source(at.pos + 2) else stale(4 * j + 2))
            && r / 16777216 == (if 3 < Filled(at, 4).1 then source(at.pos + 3) else stale(4 * j + 3))
  {
    hide WordOf, Filled, After;
    WordHoldsBytes(DrawnBytes(After(d, j), source, StaleAt(stale, j)));
  }

  /** Without hard errors draw `j` is made of the device's bytes 4j to 4j + 3. */
  lemma {:induction false} BenignBytes(d: Device, source: nat -> byte, stale: nat -> byte, j: nat)
    requires Benign(d)
    ensures var r := Draw(d, source, stale, j);
            && r % 256 == source(d.pos + 4 * j) && r / 256 % 256 == source(d.pos + 4 * j + 1)
            && r / 65536 % 256 == source(d.pos + 4 * j + 2) && r / 16777216 == source(d.pos + 4 * j + 3)
  {
    hide WordOf, Draw, Benign;
    BenignDraw(d, source, stale, j);
    WordHoldsBytes((i: nat) => source(d.pos + 4 * j + i));
  }

  /** A request of up to 256 bytes is served by a device without hard errors; a longer one is refused by any. */
  lemma {:induction false} RequestLimit(d: Device, len: nat)
    ensures len <= 256 && Benign(d) ==> Fetched(d, len).1 == len && Fetched(d, len).2
    ensures len >= 257 ==> Fetched(d, len) == (d, 0, false)
  {
    hide Benign;
    if len <= 256 && Benign(d) {
      BenignFetched(d, len);
    }
  }
}
