/**
 init/elf.c `elf_prepare_stack`: the initial process stack, as section 3.4.1 of the System V AMD64 psABI lays
 it out, written byte by byte into memory.
 */
module ElfStack {
  import opened ByteMemory
  import opened Bytes
  import opened Paging

  const AUXV_SIZE := 80
  const TOP_BUFFER := 8

  /** A C string, without its terminating zero. */
  type CString = s: seq<Byte> | 0 !in s

  // ---------- words in memory ----------

  function LittleEndian(x: nat, n: nat): (b: seq<Byte>)
    ensures |b| == n
  {
    if n == 0 then [] else [x % 256] + LittleEndian(x / 256, n - 1)
  }

  function FromLittleEndian(b: seq<Byte>): nat {
    if b == [] then 0 else b[0] + 256 * FromLittleEndian(b[1..])
  }

  function Limit(n: nat): (r: nat)
    ensures r > 0
  {
    if n == 0 then 1 else 256 * Limit(n - 1)
  }

  lemma {:induction false} EndianRoundTrip(x: nat, n: nat)
    requires x < Limit(n)
    ensures FromLittleEndian(LittleEndian(x, n)) == x
  {
    if n > 0 {
      EndianRoundTrip(x / 256, n - 1);
      assert LittleEndian(x, n)[1..] == LittleEndian(x / 256, n - 1);
    }
  }

  function W(x: nat): (b: seq<Byte>)
    ensures |b| == WORD_SIZE
  {
    LittleEndian(x, WORD_SIZE)
  }

  lemma WordsDiffer(x: nat, y: nat)
    requires x < WORD_LIMIT && y < WORD_LIMIT && W(x) == W(y)
    ensures x == y
  {
    assert Limit(8) == WORD_LIMIT;
    EndianRoundTrip(x, WORD_SIZE);
    EndianRoundTrip(y, WORD_SIZE);
  }

  function Words(xs: seq<nat>): (b: seq<Byte>)
    ensures |b| == WORD_SIZE * |xs|
  {
    if xs == [] then [] else Words(xs[..|xs| - 1]) + W(xs[|xs| - 1])
  }

  /** Byte i of a word is its i-th digit to base 256, the least significant first. */
  lemma {:induction false} DigitAt(x: nat, n: nat, i: nat)
    requires i < n
    ensures LittleEndian(x, n)[i] == x / Limit(i) % 256
  {
    if i > 0 {
      DigitAt(x / 256, n - 1, i - 1);
      DivTwice(x, Limit(i - 1));
    }
  }

  lemma DivTwice(x: nat, m: nat)
    requires m > 0
    ensures x / 256 / m == x / (256 * m)
  {
    var q, r := x / 256, x % 256;
    var q', r' := q / m, q % m;
    assert x == 256 * (m * q' + r') + r;
    assert 256 * (m * q') == (256 * m) * q' by { MulAssoc(256, m, q'); }
    assert 256 * r' + r < 256 * m;
    DivModUnique(q', 256 * r' + r, 256 * m);
  }

  /** The eight bytes at a are those of x. */
  ghost predicate WordIs(mem: Memory, a: nat, x: nat) {
    forall i :: 0 <= i < WORD_SIZE ==> a + i in mem && mem[a + i] == x / Limit(i) % 256
  }

  lemma WordBytes(mem: Memory, a: nat, x: nat)
    requires At(mem, a, W(x))
    ensures WordIs(mem, a, x)
  {
    forall i | 0 <= i < WORD_SIZE ensures a + i in mem && mem[a + i] == x / Limit(i) % 256 {
      DigitAt(x, WORD_SIZE, i);
      hide LittleEndian, Limit;
      assert W(x)[i] == mem[a + i];
    }
  }

  // ---------- strings and pointers to them ----------

  function Pack(ss: seq<CString>): seq<Byte> {
    if ss == [] then [] else Pack(ss[..|ss| - 1]) + ss[|ss| - 1] + [0]
  }

  function Ptrs(base: nat, ss: seq<CString>): (ps: seq<nat>)
    ensures |ps| == |ss|
  {
    if ss == [] then [] else Ptrs(base, ss[..|ss| - 1]) + [base + |Pack(ss[..|ss| - 1])|]
  }

  lemma PackMore(ss: seq<CString>, i: nat)
    requires i < |ss|
    ensures Pack(ss[..i + 1]) == Pack(ss[..i]) + ss[i] + [0]
  {
    assert ss[..i + 1][..i] == ss[..i];
  }

  lemma PtrsMore(base: nat, ss: seq<CString>, i: nat)
    requires i < |ss|
    ensures Ptrs(base, ss[..i + 1]) == Ptrs(base, ss[..i]) + [base + |Pack(ss[..i])|]
    ensures Words(Ptrs(base, ss[..i + 1])) == Words(Ptrs(base, ss[..i])) + W(base + |Pack(ss[..i])|)
  {
    assert ss[..i + 1][..i] == ss[..i];
    var ps := Ptrs(base, ss[..i + 1]);
    assert ps[..|ps| - 1] == Ptrs(base, ss[..i]);
  }

  /** Memory outside two areas is as it was. */
  ghost predicate SameOutside(mem0: Memory, mem: Memory, a: nat, m: nat, b: nat, n: nat) {
    forall x :: x in mem0 && !(a <= x < a + m) && !(b <= x < b + n) ==> x in mem && mem[x] == mem0[x]
  }

  lemma AtOutside(mem0: Memory, mem: Memory, a: nat, m: nat, b: nat, n: nat, at: nat, bytes: seq<Byte>)
    requires SameOutside(mem0, mem, a, m, b, n) && At(mem0, at, bytes)
    requires at + |bytes| <= a || a + m <= at
    requires at + |bytes| <= b || b + n <= at
    ensures At(mem, at, bytes)
  {
  }

  // ---------- the whole stack ----------

  /** From the stack pointer up: argc, argv and null, envp and null, auxv. */
  function Block(argv: seq<CString>, envp: seq<CString>, auxv: seq<Byte>, argData: nat, envData: nat): seq<Byte> {
    W(|argv|) + Words(Ptrs(argData, argv)) + W(0) + Words(Ptrs(envData, envp)) + W(0) + auxv
  }

  /** Memory at sp is the initial stack for these arguments, environment and auxiliary vector. */
  ghost predicate Holds(mem: Memory, sp: nat, argv: seq<CString>, envp: seq<CString>, auxv: seq<Byte>, argData: nat,
                        envData: nat)
  {
    && At(mem, sp, Block(argv, envp, auxv, argData, envData))
    && At(mem, argData, Pack(argv)) && At(mem, envData, Pack(envp))
  }

  /** A string and its zero. */
  ghost predicate StringIs(mem: Memory, a: nat, s: CString) {
    && (forall i :: 0 <= i < |s| ==> a + i in mem && mem[a + i] == s[i])
    && a + |s| in mem && mem[a + |s|] == 0
  }

  /** From a on one pointer to each string, and a null pointer behind them. */
  ghost predicate PointersAt(mem: Memory, a: nat, ptrs: seq<nat>, ss: seq<CString>) {
    && |ptrs| == |ss|
    && (forall i :: 0 <= i < |ss| ==> WordIs(mem, a + WORD_SIZE * i, ptrs[i]) && StringIs(mem, ptrs[i], ss[i]))
    && WordIs(mem, a + WORD_SIZE * |ss|, 0)
  }

  /** Section 3.4.1 of the psABI, byte by byte: argc at sp, then argv, then envp, then the auxiliary vector. */
  ghost predicate Laid(mem: Memory, sp: nat, argv: seq<CString>, argPtrs: seq<nat>, envp: seq<CString>,
                       envPtrs: seq<nat>, auxv: seq<Byte>)
  {
    && WordIs(mem, sp, |argv|)
    && PointersAt(mem, sp + WORD_SIZE, argPtrs, argv)
    && PointersAt(mem, sp + WORD_SIZE * (|argv| + 2), envPtrs, envp)
    && forall i :: 0 <= i < |auxv| ==>
         var a := sp + WORD_SIZE * (|argv| + |envp| + 3) + i; a in mem && mem[a] == auxv[i]
  }

  function Padding(argv: seq<CString>, envp: seq<CString>): nat {
    if (|argv| + 1 + (|envp| + 1) + 1) % 2 == 1 then 8 else 0
  }

  /** The size the source computes for the part of the stack it maps at once. */
  function InitialSize(argv: seq<CString>, envp: seq<CString>): nat {
    |Pack(argv)| + |Pack(envp)| + (|argv| + |envp|) * WORD_SIZE + WORD_SIZE + AUXV_SIZE
      + Padding(argv, envp) + TOP_BUFFER
  }

  class Stack {
    var mem: Memory

    /** One string and the pointer to it. */
    method CopyString(s: CString, data: nat, slot: nat)
      requires slot + WORD_SIZE <= data
      modifies this
      ensures At(mem, data, s + [0]) && At(mem, slot, W(data))
      ensures SameOutside(old(mem), mem, data, |s| + 1, slot, WORD_SIZE)
    {
      hide Put, LittleEndian;
      AtPut(mem, data, s + [0]);
      mem := Put(mem, data, s + [0]);
      AtPut(mem, slot, W(data));
      AtKept(mem, data, s + [0], slot, W(data));
      mem := Put(mem, slot, W(data));
    }

    /** Either string loop: the strings one after another, and an array of pointers to them. */
    method CopyStrings(ss: seq<CString>, data: nat, slots: nat)
      requires slots + WORD_SIZE * |ss| <= data
      modifies this
      ensures At(mem, data, Pack(ss)) && At(mem, slots, Words(Ptrs(data, ss)))
      ensures SameOutside(old(mem), mem, data, |Pack(ss)|, slots, WORD_SIZE * |ss|)
    {
      hide Put, LittleEndian, W, Words, Ptrs, Pack, At, SameOutside;
      var i: nat, next: nat, slot: nat := 0, data, slots;
      NothingYet(mem, data, slots);
      while i < |ss|
        invariant i <= |ss| && next == data + |Pack(ss[..i])| && slot == slots + WORD_SIZE * i
        invariant At(mem, data, Pack(ss[..i])) && At(mem, slots, Words(Ptrs(data, ss[..i])))
        invariant SameOutside(old(mem), mem, data, |Pack(ss[..i])|, slots, WORD_SIZE * i)
      {
        ghost var mem1 := mem;
        CopyString(ss[i], next, slot);
        Copied(old(mem), mem1, mem, ss, i, data, slots);
        next := next + |ss[i]| + 1;
        slot := slot + WORD_SIZE;
        i := i + 1;
      }
      assert ss[..|ss|] == ss;
    }

    /** Either counting loop: the strings' lengths, each with its zero. */
    method DataSize(ss: seq<CString>) returns (size: nat)
      ensures size == |Pack(ss)|
    {
      size := 0;
      var i := 0;
      while i < |ss|
        invariant 0 <= i <= |ss| && size == |Pack(ss[..i])|
      {
        PackMore(ss, i);
        size := size + |ss[i]| + 1;
        i := i + 1;
      }
      assert ss[..|ss|] == ss;
    }

    /** The writes, once the places are known. */
    method Fill(argv: seq<CString>, envp: seq<CString>, auxv: seq<Byte>, argData: nat, envData: nat, auxvStart: nat,
                sp: nat)
      requires |auxv| == AUXV_SIZE && sp + WORD_SIZE * (|argv| + |envp| + 3) == auxvStart
      requires auxvStart + AUXV_SIZE <= envData && envData + |Pack(envp)| <= argData
      modifies this
      ensures Holds(mem, sp, argv, envp, auxv, argData, envData)
      ensures Inside(old(mem), mem, sp, argData + |Pack(argv)|)
    {
      hide Put, At, Words, Ptrs, Pack, W, SameOutside, Block, Inside, Pieces;
      var envStart := auxvStart - WORD_SIZE * (|envp| + 1);
      var argStart := envStart - WORD_SIZE * (|argv| + 1);
      ghost var end := argData + |Pack(argv)|;
      NothingChanged(mem, sp, end);
      PutInside(mem, mem, auxvStart, auxv, sp, end);
      AtPut(mem, auxvStart, auxv);
      mem := Put(mem, auxvStart, auxv);
      ghost var m1 := mem;
      CopyStrings(argv, argData, argStart);
      AtOutside(m1, mem, argData, |Pack(argv)|, argStart, WORD_SIZE * |argv|, auxvStart, auxv);
      CopyInside(old(mem), m1, mem, argData, |Pack(argv)|, argStart, WORD_SIZE * |argv|, sp, end);
      ghost var m2 := mem;
      CopyStrings(envp, envData, envStart);
      EnvCopied(m2, mem, argv, envp, auxv, argData, envData, auxvStart, argStart, envStart);
      CopyInside(old(mem), m2, mem, envData, |Pack(envp)|, envStart, WORD_SIZE * |envp|, sp, end);
      Terminate(argv, envp, auxv, argData, envData, auxvStart, sp, old(mem));
    }

    /**
     `elf_prepare_stack`: the stack pointer is 16-byte aligned and memory from it on reads back as the arguments,
     the environment and the auxiliary vector; only memory between it and the top is written.  The whole stack is
     larger than the size computed for the part mapped at once.
     */
    method Prepare(top: nat, auxv: seq<Byte>, argv: seq<CString>, envp: seq<CString>, mapped: bool, reserved: bool)
      returns (sp: nat, ghost argData: nat, ghost envData: nat)
      requires |auxv| == AUXV_SIZE && Needed(argv, envp) < top < WORD_LIMIT
      modifies this
      ensures !mapped || !reserved ==> sp == 0 && mem == old(mem)
      ensures mapped && reserved ==>
                && 0 < sp && sp % 16 == 0 && Holds(mem, sp, argv, envp, auxv, argData, envData)
                && Laid(mem, sp, argv, Ptrs(argData, argv), envp, Ptrs(envData, envp), auxv)
                && sp + WORD_SIZE * (|argv| + |envp| + 3) + AUXV_SIZE <= envData && envData + |Pack(envp)| == argData
                && argData + |Pack(argv)| + TOP_BUFFER == top && Inside(old(mem), mem, sp, top)
                && InitialSize(argv, envp) + 2 * WORD_SIZE <= top - sp <= InitialSize(argv, envp) + 2 * WORD_SIZE + 15
    {
      hide Pack, Holds, Inside, Laid;
      argData, envData := 0, 0;
      var argvSize := DataSize(argv);
      var envpSize := DataSize(envp);
      if !mapped || !reserved {
        return 0, 0, 0;
      }
      var align := if (|argv| + 1 + (|envp| + 1) + 1) % 2 == 1 then 8 else 0;
      var argStart := top - TOP_BUFFER - argvSize;
      var envStart := argStart - envpSize;
      var auxvStart := envStart - AUXV_SIZE;
      auxvStart := auxvStart - auxvStart % 16 - align;
      sp := auxvStart - WORD_SIZE * (|envp| + 1) - WORD_SIZE * (|argv| + 1) - WORD_SIZE;
      Aligned(envStart - AUXV_SIZE, |argv| + |envp| + 3, align);
      argData, envData := argStart, envStart;
      Fill(argv, envp, auxv, argStart, envStart, auxvStart, sp);
      Wider(old(mem), mem, sp, top - TOP_BUFFER, top);
      HoldsLaid(mem, sp, argv, envp, auxv, argData, envData);
    }

    /** The two null pointers and argc. */
    method Terminate(argv: seq<CString>, envp: seq<CString>, auxv: seq<Byte>, argData: nat, envData: nat,
                     auxvStart: nat, sp: nat,
                     ghost mem0: Memory)
      requires |auxv| == AUXV_SIZE && sp + WORD_SIZE * (|argv| + |envp| + 3) == auxvStart
      requires auxvStart + AUXV_SIZE <= envData && envData + |Pack(envp)| <= argData
      requires Pieces(mem, argv, envp, auxv, argData, envData, auxvStart, sp + WORD_SIZE, sp + WORD_SIZE * (|argv| + 2))
      requires Inside(mem0, mem, sp, argData + |Pack(argv)|)
      modifies this
      ensures Holds(mem, sp, argv, envp, auxv, argData, envData) && Inside(mem0, mem, sp, argData + |Pack(argv)|)
    {
      hide Put, At, Words, Ptrs, Pack, W, Pieces, Inside, Block;
      var argStart, envStart := sp + WORD_SIZE, sp + WORD_SIZE * (|argv| + 2);
      ghost var end := argData + |Pack(argv)|;
      var argNull, envNull := argStart + WORD_SIZE * |argv|, envStart + WORD_SIZE * |envp|;
      PutInside(mem0, mem, argNull, W(0), sp, end);
      PiecesKept(mem, argv, envp, auxv, argData, envData, auxvStart, argStart, envStart, argNull, W(0));
      AtPut(mem, argNull, W(0));
      mem := Put(mem, argNull, W(0));
      PutInside(mem0, mem, envNull, W(0), sp, end);
      PiecesKept(mem, argv, envp, auxv, argData, envData, auxvStart, argStart, envStart, envNull, W(0));
      AtKept(mem, argNull, W(0), envNull, W(0));
      AtPut(mem, envNull, W(0));
      mem := Put(mem, envNull, W(0));
      PutInside(mem0, mem, sp, W(|argv|), sp, end);
      PiecesKept(mem, argv, envp, auxv, argData, envData, auxvStart, argStart, envStart, sp, W(|argv|));
      AtKept(mem, argNull, W(0), sp, W(|argv|));
      AtKept(mem, envNull, W(0), sp, W(|argv|));
      AtPut(mem, sp, W(|argv|));
      mem := Put(mem, sp, W(|argv|));
      Assemble(mem, argv, envp, auxv, argData, envData, auxvStart, sp);
    }
  }

  /** Memory the stack takes at most, below its top. */
  function Needed(argv: seq<CString>, envp: seq<CString>): nat {
    InitialSize(argv, envp) + 2 * WORD_SIZE + 15
  }

  /** Only memory from lo to hi has changed. */
  ghost predicate Inside(mem0: Memory, mem: Memory, lo: nat, hi: nat) {
    forall x :: x in mem0 && !(lo <= x < hi) ==> x in mem && mem[x] == mem0[x]
  }

  lemma NothingChanged(mem: Memory, lo: nat, hi: nat)
    ensures Inside(mem, mem, lo, hi)
  {
  }

  lemma PutInside(mem0: Memory, mem: Memory, a: nat, b: seq<Byte>, lo: nat, hi: nat)
    requires Inside(mem0, mem, lo, hi) && lo <= a && a + |b| <= hi
    ensures Inside(mem0, Put(mem, a, b), lo, hi)
  {
    hide Put;
  }

  lemma CopyInside(mem0: Memory, mem1: Memory, mem: Memory, a: nat, m: nat, b: nat, n: nat, lo: nat, hi: nat)
    requires Inside(mem0, mem1, lo, hi) && SameOutside(mem1, mem, a, m, b, n)
    requires lo <= a && a + m <= hi && lo <= b && b + n <= hi
    ensures Inside(mem0, mem, lo, hi)
  {
  }

  /** Strings, pointer arrays and auxiliary vector in place. */
  ghost predicate Pieces(mem: Memory, argv: seq<CString>, envp: seq<CString>, auxv: seq<Byte>, argData: nat,
                         envData: nat,
                         auxvStart: nat, argStart: nat, envStart: nat)
  {
    && At(mem, argData, Pack(argv)) && At(mem, envData, Pack(envp)) && At(mem, auxvStart, auxv)
    && At(mem, argStart, Words(Ptrs(argData, argv))) && At(mem, envStart, Words(Ptrs(envData, envp)))
  }

  /** The environment goes where nothing of the arguments is. */
  lemma EnvCopied(m2: Memory, mem: Memory, argv: seq<CString>, envp: seq<CString>, auxv: seq<Byte>, argData: nat,
                  envData: nat,
                  auxvStart: nat, argStart: nat, envStart: nat)
    requires argStart + WORD_SIZE * |argv| <= envStart && envStart + WORD_SIZE * |envp| <= auxvStart
    requires auxvStart + |auxv| <= envData && envData + |Pack(envp)| <= argData
    requires At(m2, argData, Pack(argv)) && At(m2, auxvStart, auxv) && At(m2, argStart, Words(Ptrs(argData, argv)))
    requires At(mem, envData, Pack(envp)) && At(mem, envStart, Words(Ptrs(envData, envp)))
    requires SameOutside(m2, mem, envData, |Pack(envp)|, envStart, WORD_SIZE * |envp|)
    ensures Pieces(mem, argv, envp, auxv, argData, envData, auxvStart, argStart, envStart)
  {
    hide At, Words, Ptrs, Pack, SameOutside;
    AtOutside(m2, mem, envData, |Pack(envp)|, envStart, WORD_SIZE * |envp|, argData, Pack(argv));
    AtOutside(m2, mem, envData, |Pack(envp)|, envStart, WORD_SIZE * |envp|, auxvStart, auxv);
    AtOutside(m2, mem, envData, |Pack(envp)|, envStart, WORD_SIZE * |envp|, argStart, Words(Ptrs(argData, argv)));
  }

  /** A word written beside the pieces leaves them alone. */
  lemma PiecesKept(mem: Memory, argv: seq<CString>, envp: seq<CString>, auxv: seq<Byte>, argData: nat, envData: nat,
                   auxvStart: nat, argStart: nat, envStart: nat, a: nat, b: seq<Byte>)
    requires Pieces(mem, argv, envp, auxv, argData, envData, auxvStart, argStart, envStart)
    requires a + |b| <= auxvStart <= envData <= argData
    requires a + |b| <= argStart || argStart + WORD_SIZE * |argv| <= a
    requires a + |b| <= envStart || envStart + WORD_SIZE * |envp| <= a
    ensures Pieces(Put(mem, a, b), argv, envp, auxv, argData, envData, auxvStart, argStart, envStart)
  {
    hide At, Words, Ptrs, Pack, Put;
    AtKept(mem, argData, Pack(argv), a, b);
    AtKept(mem, envData, Pack(envp), a, b);
    AtKept(mem, auxvStart, auxv, a, b);
    AtKept(mem, argStart, Words(Ptrs(argData, argv)), a, b);
    AtKept(mem, envStart, Words(Ptrs(envData, envp)), a, b);
  }

  lemma Assemble(mem: Memory, argv: seq<CString>, envp: seq<CString>, auxv: seq<Byte>, argData: nat, envData: nat,
                 auxvStart: nat, sp: nat)
    requires Pieces(mem, argv, envp, auxv, argData, envData, auxvStart, sp + WORD_SIZE, sp + WORD_SIZE * (|argv| + 2))
    requires auxvStart == sp + WORD_SIZE * (|argv| + |envp| + 3) && At(mem, sp, W(|argv|))
    requires At(mem, sp + WORD_SIZE * (|argv| + 1), W(0)) && At(mem, sp + WORD_SIZE * (|argv| + |envp| + 2), W(0))
    ensures Holds(mem, sp, argv, envp, auxv, argData, envData)
  {
    hide At, Words, Ptrs, Pack, W;
    var b1 := W(|argv|);
    var b2 := b1 + Words(Ptrs(argData, argv));
    var b3 := b2 + W(0);
    var b4 := b3 + Words(Ptrs(envData, envp));
    var b5 := b4 + W(0);
    AtConcat(mem, sp, b1, Words(Ptrs(argData, argv)));
    AtConcat(mem, sp, b2, W(0));
    AtConcat(mem, sp, b3, Words(Ptrs(envData, envp)));
    AtConcat(mem, sp, b4, W(0));
    AtConcat(mem, sp, b5, auxv);
  }

  lemma NothingYet(mem: Memory, data: nat, slots: nat)
    ensures Pack([]) == [] && At(mem, data, Pack([])) && At(mem, slots, Words(Ptrs(data, [])))
    ensures SameOutside(mem, mem, data, 0, slots, 0)
  {
  }

  /** One turn of the string loops. */
  lemma Copied(mem0: Memory, mem1: Memory, mem: Memory, ss: seq<CString>, i: nat, data: nat, slots: nat)
    requires i < |ss| && slots + WORD_SIZE * |ss| <= data
    requires At(mem1, data, Pack(ss[..i])) && At(mem1, slots, Words(Ptrs(data, ss[..i])))
    requires SameOutside(mem0, mem1, data, |Pack(ss[..i])|, slots, WORD_SIZE * i)
    requires var next, slot := data + |Pack(ss[..i])|, slots + WORD_SIZE * i;
      && At(mem, next, ss[i] + [0]) && At(mem, slot, W(next))
      && SameOutside(mem1, mem, next, |ss[i]| + 1, slot, WORD_SIZE)
    ensures At(mem, data, Pack(ss[..i + 1])) && At(mem, slots, Words(Ptrs(data, ss[..i + 1])))
    ensures |Pack(ss[..i + 1])| == |Pack(ss[..i])| + |ss[i]| + 1
    ensures SameOutside(mem0, mem, data, |Pack(ss[..i + 1])|, slots, WORD_SIZE * (i + 1))
  {
    hide W, Words, Ptrs, Pack, At, SameOutside;
    PackMore(ss, i);
    PtrsMore(data, ss, i);
    var next, slot := data + |Pack(ss[..i])|, slots + WORD_SIZE * i;
    AtOutside(mem1, mem, next, |ss[i]| + 1, slot, WORD_SIZE, data, Pack(ss[..i]));
    AtOutside(mem1, mem, next, |ss[i]| + 1, slot, WORD_SIZE, slots, Words(Ptrs(data, ss[..i])));
    AtConcat(mem, data, Pack(ss[..i]), ss[i] + [0]);
    assert Pack(ss[..i]) + (ss[i] + [0]) == Pack(ss[..i]) + ss[i] + [0];
    AtConcat(mem, slots, Words(Ptrs(data, ss[..i])), W(next));
    OutsideMore(mem0, mem1, mem, data, |Pack(ss[..i])|, |ss[i]| + 1, slots, WORD_SIZE * i, WORD_SIZE);
  }

  lemma OutsideMore(mem0: Memory, mem1: Memory, mem: Memory, a: nat, m: nat, m': nat, b: nat, n: nat, n': nat)
    requires SameOutside(mem0, mem1, a, m, b, n) && SameOutside(mem1, mem, a + m, m', b + n, n')
    ensures SameOutside(mem0, mem, a, m + m', b, n + n')
  {
  }

  lemma Wider(mem0: Memory, mem: Memory, lo: nat, hi: nat, hi': nat)
    requires Inside(mem0, mem, lo, hi) && hi <= hi'
    ensures Inside(mem0, mem, lo, hi')
  {
  }

  /** The padding makes up for an odd number of words. */
  lemma Aligned(a: int, n: nat, align: nat)
    requires align == if n % 2 == 1 then 8 else 0
    ensures (a - a % 16 - align - WORD_SIZE * n) % 16 == 0
  {
  }

  // ---------- reading the stack back ----------

  /** The i-th pointer leads to the i-th string and its zero. */
  lemma {:induction false} StringAt(mem: Memory, base: nat, ss: seq<CString>, i: nat)
    requires At(mem, base, Pack(ss)) && i < |ss|
    ensures At(mem, Ptrs(base, ss)[i], ss[i] + [0])
    decreases |ss|
  {
    var n := |ss| - 1;
    var front := ss[..n];
    assert Pack(ss) == Pack(front) + (ss[n] + [0]);
    AtConcat(mem, base, Pack(front), ss[n] + [0]);
    if i < n {
      StringAt(mem, base, front, i);
      assert Ptrs(base, ss)[i] == Ptrs(base, front)[i];
    }
  }

  lemma NotLonger(mem: Memory, a: nat, s: CString, t: CString)
    requires At(mem, a, s + [0]) && At(mem, a, t + [0])
    ensures |t| <= |s|
  {
    var z := t + [0];
    forall i | 0 <= i < |t| ensures z[i] != 0 {
      assert z[i] == t[i] && t[i] in t;
    }
    assert mem[a + |s|] == (s + [0])[a + |s| - a] == 0;
  }

  /** Two strings read at one address are the same. */
  lemma SameString(mem: Memory, a: nat, s: CString, t: CString)
    requires At(mem, a, s + [0]) && At(mem, a, t + [0])
    ensures s == t
  {
    NotLonger(mem, a, s, t);
    NotLonger(mem, a, t, s);
    AtUnique(mem, a, s + [0], t + [0]);
    assert s == (s + [0])[..|s|] && t == (t + [0])[..|t|];
  }

  /** The i-th word of an array of words. */
  lemma {:induction false} WordAt(mem: Memory, a: nat, xs: seq<nat>, i: nat)
    requires At(mem, a, Words(xs)) && i < |xs|
    ensures At(mem, a + WORD_SIZE * i, W(xs[i]))
    decreases |xs|
  {
    var n := |xs| - 1;
    AtConcat(mem, a, Words(xs[..n]), W(xs[n]));
    if i < n {
      WordAt(mem, a, xs[..n], i);
    }
  }

  /** Pointers into the stack are addresses, never null. */
  ghost predicate Addresses(ps: seq<nat>) {
    forall i :: 0 <= i < |ps| ==> 0 < ps[i] < WORD_LIMIT
  }

  /** A null-terminated array of pointers is read one way only. */
  lemma SameLength(mem: Memory, a: nat, ps: seq<nat>, qs: seq<nat>)
    requires Addresses(ps) && Addresses(qs)
    requires At(mem, a, Words(ps)) && At(mem, a + WORD_SIZE * |ps|, W(0)) && At(mem, a, Words(qs))
    requires At(mem, a + WORD_SIZE * |qs|, W(0))
    ensures |qs| <= |ps|
  {
    hide At, Words, W;
    if |ps| < |qs| {
      WordAt(mem, a, qs, |ps|);
      AtUnique(mem, a + WORD_SIZE * |ps|, W(0), W(qs[|ps|]));
      WordsDiffer(0, qs[|ps|]);
    }
  }

  lemma SameWords(mem: Memory, a: nat, ps: seq<nat>, qs: seq<nat>)
    requires Addresses(ps) && Addresses(qs) && |ps| == |qs| && At(mem, a, Words(ps)) && At(mem, a, Words(qs))
    ensures ps == qs
  {
    hide At, Words, W;
    forall i | 0 <= i < |ps| ensures ps[i] == qs[i] {
      WordAt(mem, a, ps, i);
      WordAt(mem, a, qs, i);
      AtUnique(mem, a + WORD_SIZE * i, W(ps[i]), W(qs[i]));
      WordsDiffer(ps[i], qs[i]);
    }
  }

  lemma SameStrings(mem: Memory, base: nat, ss: seq<CString>, base': nat, ts: seq<CString>)
    requires At(mem, base, Pack(ss)) && At(mem, base', Pack(ts)) && Ptrs(base, ss) == Ptrs(base', ts)
    ensures ss == ts
  {
    assert |ss| == |Ptrs(base, ss)| == |Ptrs(base', ts)| == |ts|;
    forall i | 0 <= i < |ss| ensures ss[i] == ts[i] {
      StringAt(mem, base, ss, i);
      StringAt(mem, base', ts, i);
      SameString(mem, Ptrs(base, ss)[i], ss[i], ts[i]);
    }
  }

  /** Where the parts of a stack are. */
  lemma Parts(mem: Memory, sp: nat, argv: seq<CString>, envp: seq<CString>, auxv: seq<Byte>, argData: nat, envData: nat)
    requires Holds(mem, sp, argv, envp, auxv, argData, envData)
    ensures At(mem, sp, W(|argv|)) && At(mem, sp + WORD_SIZE, Words(Ptrs(argData, argv)))
    ensures At(mem, sp + WORD_SIZE * (|argv| + 1), W(0))
    ensures var envStart := sp + WORD_SIZE * (|argv| + 2);
      && At(mem, envStart, Words(Ptrs(envData, envp))) && At(mem, envStart + WORD_SIZE * |envp|, W(0))
      && At(mem, envStart + WORD_SIZE * |envp| + WORD_SIZE, auxv)
  {
    hide At, Words, Ptrs, Pack, W;
    var b1 := W(|argv|);
    var b2 := b1 + Words(Ptrs(argData, argv));
    var b3 := b2 + W(0);
    var b4 := b3 + Words(Ptrs(envData, envp));
    AtConcat(mem, sp, b4 + W(0), auxv);
    AtConcat(mem, sp, b4, W(0));
    AtConcat(mem, sp, b3, Words(Ptrs(envData, envp)));
    AtConcat(mem, sp, b2, W(0));
    AtConcat(mem, sp, b1, Words(Ptrs(argData, argv)));
  }

  lemma PointersLaid(mem: Memory, a: nat, base: nat, ss: seq<CString>)
    requires At(mem, a, Words(Ptrs(base, ss))) && At(mem, a + WORD_SIZE * |ss|, W(0)) && At(mem, base, Pack(ss))
    ensures PointersAt(mem, a, Ptrs(base, ss), ss)
  {
    hide WordIs, Words, Ptrs, Pack, W;
    WordBytes(mem, a + WORD_SIZE * |ss|, 0);
    var ptrs := Ptrs(base, ss);
    forall i | 0 <= i < |ss| ensures WordIs(mem, a + WORD_SIZE * i, ptrs[i]) && StringIs(mem, ptrs[i], ss[i]) {
      WordAt(mem, a, ptrs, i);
      WordBytes(mem, a + WORD_SIZE * i, ptrs[i]);
      StringAt(mem, base, ss, i);
      StringBytes(mem, ptrs[i], ss[i]);
    }
  }

  lemma StringBytes(mem: Memory, a: nat, s: CString)
    requires At(mem, a, s + [0])
    ensures StringIs(mem, a, s)
  {
    var z := s + [0];
    forall i | 0 <= i <= |s| ensures a + i in mem && mem[a + i] == z[i] {
    }
  }

  /** What the writes leave is the layout of the psABI. */
  lemma HoldsLaid(mem: Memory, sp: nat, argv: seq<CString>, envp: seq<CString>, auxv: seq<Byte>, argData: nat,
                  envData: nat)
    requires Holds(mem, sp, argv, envp, auxv, argData, envData)
    ensures Laid(mem, sp, argv, Ptrs(argData, argv), envp, Ptrs(envData, envp), auxv)
  {
    hide WordIs, PointersAt, Words, Ptrs, Pack, W, Block;
    Parts(mem, sp, argv, envp, auxv, argData, envData);
    WordBytes(mem, sp, |argv|);
    PointersLaid(mem, sp + WORD_SIZE, argData, argv);
    PointersLaid(mem, sp + WORD_SIZE * (|argv| + 2), envData, envp);
    var a := sp + WORD_SIZE * (|argv| + |envp| + 3);
    assert At(mem, a, auxv);
  }

  /** A stack decodes to exactly one argument list, environment and auxiliary vector. */
  lemma DecodesOnce(mem: Memory, sp: nat, argv: seq<CString>, envp: seq<CString>, auxv: seq<Byte>, argData: nat,
                    envData: nat,
                    argv': seq<CString>, envp': seq<CString>, auxv': seq<Byte>, argData': nat, envData': nat)
    requires Holds(mem, sp, argv, envp, auxv, argData, envData)
    requires Holds(mem, sp, argv', envp', auxv', argData', envData')
    requires |auxv| == |auxv'| == AUXV_SIZE && |argv| < WORD_LIMIT && |argv'| < WORD_LIMIT
    requires Addresses(Ptrs(argData, argv)) && Addresses(Ptrs(envData, envp))
    requires Addresses(Ptrs(argData', argv')) && Addresses(Ptrs(envData', envp'))
    ensures argv == argv' && envp == envp' && auxv == auxv'
  {
    hide At, Words, Ptrs, Pack, W, Addresses, Block;
    Parts(mem, sp, argv, envp, auxv, argData, envData);
    Parts(mem, sp, argv', envp', auxv', argData', envData');
    AtUnique(mem, sp, W(|argv|), W(|argv'|));
    WordsDiffer(|argv|, |argv'|);
    SameWords(mem, sp + WORD_SIZE, Ptrs(argData, argv), Ptrs(argData', argv'));
    SameStrings(mem, argData, argv, argData', argv');
    var envStart := sp + WORD_SIZE * (|argv| + 2);
    SameLength(mem, envStart, Ptrs(envData, envp), Ptrs(envData', envp'));
    SameLength(mem, envStart, Ptrs(envData', envp'), Ptrs(envData, envp));
    SameWords(mem, envStart, Ptrs(envData, envp), Ptrs(envData', envp'));
    SameStrings(mem, envData, envp, envData', envp');
    AtUnique(mem, envStart + WORD_SIZE * |envp| + WORD_SIZE, auxv, auxv');
  }

  /** The pointers `elf_prepare_stack` writes are addresses: its stacks decode. */
  lemma {:induction false} StackPointers(base: nat, ss: seq<CString>)
    requires 0 < base && base + |Pack(ss)| < WORD_LIMIT
    ensures Addresses(Ptrs(base, ss))
    decreases |ss|
  {
    if ss != [] {
      StackPointers(base, ss[..|ss| - 1]);
    }
  }
}
