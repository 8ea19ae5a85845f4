/** Bytes as numbers, and the size of a machine word. */
module Bytes {
  type Byte = x: int | 0 <= x < 256

  const WORD_SIZE := 8
  const WORD_LIMIT := 0x1_0000_0000_0000_0000

  function Zeros(n: nat): seq<Byte> {
    seq(n, _ => 0)
  }
}

/** Memory as a map from mapped addresses to bytes. */
module ByteMemory {
  import opened Bytes

  type Memory = map<nat, Byte>

  function Range(a: nat, n: nat): (s: set<nat>)
    ensures forall x :: x in s <==> a <= x < a + n
  {
    if n == 0 then {} else Range(a, n - 1) + {a + n - 1}
  }

  /** b over memory at address a. */
  function Put(mem: Memory, a: nat, b: seq<Byte>): (m: Memory)
    ensures m.Keys == mem.Keys + Range(a, |b|)
    ensures forall x :: x in m ==> m[x] == if a <= x < a + |b| then b[x - a] else mem[x]
  {
    map x | x in mem.Keys + Range(a, |b|) :: if a <= x < a + |b| then b[x - a] else mem[x]
  }

  /** Memory at address a holds b. */
  ghost predicate At(mem: Memory, a: nat, b: seq<Byte>) {
    forall x :: a <= x < a + |b| ==> x in mem && mem[x] == b[x - a]
  }

  lemma AtPut(mem: Memory, a: nat, b: seq<Byte>)
    ensures At(Put(mem, a, b), a, b)
  {
    hide Put;
  }

  /** A write elsewhere is not seen. */
  lemma AtKept(mem: Memory, a: nat, b: seq<Byte>, c: nat, d: seq<Byte>)
    requires At(mem, a, b) && (a + |b| <= c || c + |d| <= a)
    ensures At(Put(mem, c, d), a, b)
  {
    hide Put;
  }

  lemma AtConcat(mem: Memory, a: nat, x: seq<Byte>, y: seq<Byte>)
    ensures At(mem, a, x + y) <==> At(mem, a, x) && At(mem, a + |x|, y)
  {
    var z := x + y;
    if At(mem, a, z) {
      forall p | a + |x| <= p < a + |x| + |y| ensures p in mem && mem[p] == y[p - (a + |x|)] {
        assert z[p - a] == y[p - (a + |x|)];
      }
      forall p | a <= p < a + |x| ensures p in mem && mem[p] == x[p - a] {
        assert z[p - a] == x[p - a];
      }
    }
  }

  /** Memory holds one thing at a time. */
  lemma AtUnique(mem: Memory, a: nat, x: seq<Byte>, y: seq<Byte>)
    requires At(mem, a, x) && At(mem, a, y) && |x| == |y|
    ensures x == y
  {
    forall i | 0 <= i < |x| ensures x[i] == y[i] {
      assert mem[a + i] == x[a + i - a];
    }
  }
}
