/** kernel/lib/ringbuffer.c: a byte ring with free-running read and write counters. */
module RingBuffer {
  import opened Bytes
  import opened Paging

  /** The bytes between the counters, oldest first. */
  function View(d: seq<Byte>, r: nat, w: nat): seq<Byte>
    requires d != [] && r <= w
  {
    seq(w - r, i requires 0 <= i < w - r => d[(r + i) % |d|])
  }

  /** Positions in the ring from w on: up to the end, then from the start. */
  lemma Around(w: nat, k: nat, n: nat)
    requires n > 0 && k < n
    ensures (w + k) % n == if w % n + k < n then w % n + k else w % n + k - n
  {
    var q, off := w / n, w % n;
    assert w == n * q + off;
    if off + k < n {
      DivModUnique(q, off + k, n);
    } else {
      assert n * (q + 1) == n * q + n;
      DivModUnique(q + 1, off + k - n, n);
    }
  }

  /** Less than one turn apart is a different position. */
  lemma Elsewhere(a: nat, b: nat, n: nat)
    requires a < b < a + n
    ensures a % n != b % n
  {
    Around(a, b - a, n);
  }

  lemma {:induction false} ReadView(d: seq<Byte>, r: nat, w: nat, n: nat)
    requires d != [] && r <= w <= r + |d| && n <= w - r
    ensures var off := r % |d|;
      var first := if n < |d| - off then n else |d| - off;
      View(d, r, w)[..n] == d[off..off + first] + d[..n - first]
  {
    var off := r % |d|;
    var first := if n < |d| - off then n else |d| - off;
    forall i | 0 <= i < n ensures View(d, r, w)[i] == (d[off..off + first] + d[..n - first])[i] {
      if i < |d| {
        Around(r, i, |d|);
      }
    }
  }

  lemma Advance(d: seq<Byte>, r: nat, w: nat, n: nat)
    requires d != [] && r <= w && n <= w - r
    ensures View(d, r + n, w) == View(d, r, w)[n..]
  {
    forall i | 0 <= i < w - r - n ensures View(d, r + n, w)[i] == View(d, r, w)[n..][i] {
      assert r + n + i == r + (n + i);
    }
  }

  /** What `ringbuffer_write` copies: up to the end of the ring, and nothing more. */
  function Stored(d: seq<Byte>, w: nat, b: seq<Byte>): seq<Byte>
    requires d != [] && |b| <= |d|
  {
    var off := w % |d|;
    var first := if |b| < |d| - off then |b| else |d| - off;
    d[..off] + b[..first] + d[off + first..]
  }

  /** What a write of b appends to the ring: past the end of the ring, what was at its start before. */
  function Appended(d: seq<Byte>, w: nat, b: seq<Byte>): (s: seq<Byte>)
    requires d != [] && |b| <= |d|
    ensures |s| == |b|
  {
    var rem := |d| - w % |d|;
    if |b| <= rem then b else b[..rem] + d[..|b| - rem]
  }

  lemma WriteView(d: seq<Byte>, r: nat, w: nat, b: seq<Byte>)
    requires d != [] && r <= w && w + |b| <= r + |d|
    ensures View(Stored(d, w, b), r, w + |b|) == View(d, r, w) + Appended(d, w, b)
  {
    var n := |d|;
    var d', off := Stored(d, w, b), w % n;
    var first := if |b| < n - off then |b| else n - off;
    forall i | 0 <= i < w - r ensures View(d', r, w + |b|)[i] == View(d, r, w)[i] {
      Kept(d, r, w, b, r + i);
    }
    forall k | 0 <= k < |b| ensures View(d', r, w + |b|)[w - r + k] == Appended(d, w, b)[k] {
      Around(w, k, n);
      assert r + (w - r + k) == w + k;
    }
  }

  /** A byte that is still to be read is not overwritten. */
  lemma Kept(d: seq<Byte>, r: nat, w: nat, b: seq<Byte>, j: nat)
    requires d != [] && r <= j < w && w + |b| <= r + |d|
    ensures Stored(d, w, b)[j % |d|] == d[j % |d|]
  {
    var n, off := |d|, w % |d|;
    var p := j % n;
    var first := if |b| < n - off then |b| else n - off;
    if off <= p < off + first {
      Around(w, p - off, n);
      Elsewhere(j, w + (p - off), n);
    }
  }

  /** The write is right exactly when it does not straddle the end, or the stale bytes happen to be the same. */
  lemma StraddleExact(d: seq<Byte>, w: nat, b: seq<Byte>)
    requires d != [] && |b| <= |d|
    ensures Appended(d, w, b) == b <==> var rem := |d| - w % |d|; |b| <= rem || d[..|b| - rem] == b[rem..]
  {
    var rem := |d| - w % |d|;
    if |b| > rem {
      assert b == b[..rem] + b[rem..];
      assert (b[..rem] + d[..|b| - rem])[rem..] == d[..|b| - rem];
    }
  }

  /** A two-byte record across the end of a four-byte ring comes out with a stale second byte. */
  lemma StraddleExample()
    ensures Appended([7, 0, 0, 0], 3, [1, 2]) == [1, 7]
  {
  }

  /** Records that divide the ring never straddle its end. */
  lemma WholeRecords(n: nat, w: nat, record: nat)
    requires 0 < record <= n && n % record == 0 && w % record == 0
    ensures w % n + record <= n && (w % n) % record == 0
  {
    var p, q := n / record, w / n;
    assert n == record * p;
    var a := w / record;
    assert w == record * a && w == n * q + w % n;
    MulAssoc(record, p, q);
    assert w % n == record * a - record * (p * q) == record * (a - p * q);
    var k := a - p * q;
    Factor(record, k, p);
    MulGap(k, p, record);
    DivModUnique(k, 0, record);
  }

  lemma Factor(record: nat, k: int, p: nat)
    requires record > 0 && 0 <= record * k < record * p
    ensures 0 <= k < p
  {
  }

  class Ring {
    const data: array<Byte>
    var write: nat
    var read: nat

    ghost predicate Valid()
      reads this
    {
      data.Length > 0 && read <= write <= read + data.Length
    }

    ghost function Contents(): seq<Byte>
      requires Valid()
      reads this, data
    {
      View(data[..], read, write)
    }

    /** `ringbuffer_init`. */
    constructor (size: nat)
      requires size > 0
      ensures Valid() && Contents() == [] && data.Length == size && write == 0 && fresh(data)
    {
      data := new Byte[size](_ => 0);
      write, read := 0, 0;
    }

    /** `ringbuffer_read`: as many of the oldest bytes as there are. */
    method Read(size: nat) returns (bytes: seq<Byte>)
      requires Valid()
      modifies this`read
      ensures Valid() && |bytes| == if size < |old(Contents())| then size else |old(Contents())|
      ensures old(Contents()) == bytes + Contents() && read == old(read) + |bytes|
    {
      var occupancy := write - read;
      var n := if size < occupancy then size else occupancy;
      ReadView(data[..], read, write, n);
      Advance(data[..], read, write, n);
      var offset := read % data.Length;
      var remaining := data.Length - offset;
      var first := if n < remaining then n else remaining;
      bytes := data[offset..offset + first];
      if first != n {
        bytes := bytes + data[..n - first];
      }
      assert bytes == Contents()[..n];
      read := read + n;
    }

    /** The two copies of `ringbuffer_write`: the second is guarded by the wrong test, so it never copies anything. */
    method CopyIn(buffer: seq<Byte>)
      requires data.Length > 0 && |buffer| <= data.Length
      modifies data
      ensures data[..] == Stored(old(data[..]), write, buffer)
    {
      var n := |buffer|;
      var offset := write % data.Length;
      var remaining := data.Length - offset;
      var first := if n < remaining then n else remaining;
      Copy(offset, buffer[..first]);
      if first == n {
        Copy(0, buffer[first..n]);
      }
    }

    /** `ringbuffer_write`: appends what fits, with stale bytes for any part past the end of the ring. */
    method Write(buffer: seq<Byte>) returns (n: nat)
      requires Valid()
      modifies this`write, data
      ensures var room := data.Length - |old(Contents())|;
        Valid() && n == if |buffer| < room then |buffer| else room
      ensures Contents() == old(Contents()) + Appended(old(data[..]), old(write), buffer[..n])
      ensures write == old(write) + n
    {
      hide Stored, Appended;
      var free := data.Length - (write - read);
      n := if |buffer| < free then |buffer| else free;
      CopyIn(buffer[..n]);
      WriteView(old(data[..]), read, write, buffer[..n]);
      write := write + n;
    }

    /** `memcpy` into the ring. */
    method Copy(at: nat, b: seq<Byte>)
      requires at + |b| <= data.Length
      modifies data
      ensures data[..] == old(data[..at]) + b + old(data[at + |b|..])
    {
      var i := 0;
      while i < |b|
        invariant 0 <= i <= |b|
        invariant data[..] == old(data[..at]) + b[..i] + old(data[at + i..])
      {
        data[at + i] := b[i];
        i := i + 1;
      }
    }
  }
}
