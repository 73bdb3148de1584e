/** A function's code with the source position of every byte, kept as runs. */
module Chunk {
  import opened Values
  import opened Bytecode
  import opened CodeGen

  /** `reps` bytes in a row that come from the same source position. */
  datatype Run = Run(offset: nat, reps: nat)

  /** The plain array the runs stand for: one position per byte. */
  function Expand(runs: seq<Run>): seq<nat>
    decreases |runs|
  {
    if runs == [] then []
    else Expand(runs[..|runs| - 1]) + Repeat(runs[|runs| - 1].offset, runs[|runs| - 1].reps)
  }

  function Repeat(offset: nat, n: nat): (r: seq<nat>)
    ensures |r| == n && forall i :: 0 <= i < n ==> r[i] == offset
  {
    seq(n, _ => offset)
  }

  /** Extend the last run when the position is the same, else begin a new one. */
  function Record(runs: seq<Run>, offset: nat, n: nat): seq<Run> {
    if runs != [] && runs[|runs| - 1].offset == offset
    then runs[..|runs| - 1] + [Run(offset, runs[|runs| - 1].reps + n)]
    else runs + [Run(offset, n)]
  }

  /** Recording n bytes appends n copies of their position to the plain array. */
  lemma RecordExpands(runs: seq<Run>, offset: nat, n: nat)
    ensures Expand(Record(runs, offset, n)) == Expand(runs) + Repeat(offset, n)
  {
    var k, r := |runs| - 1, Record(runs, offset, n);
    if runs != [] && runs[k].offset == offset {
      assert r[..k] == runs[..k];
      assert Repeat(offset, runs[k].reps) + Repeat(offset, n) == Repeat(offset, runs[k].reps + n);
    } else {
      assert r[..|runs|] == runs;
    }
  }

  /** Neighbouring runs have different positions, so no shorter list of runs will do. */
  predicate Compact(runs: seq<Run>) {
    forall i :: 0 < i < |runs| ==> runs[i - 1].offset != runs[i].offset
  }

  lemma RecordCompact(runs: seq<Run>, offset: nat, n: nat)
    requires Compact(runs)
    ensures Compact(Record(runs, offset, n))
  {
  }

  /** The lookup as written: add up runs until they pass the index; 0 when they never do. */
  function Lookup(runs: seq<Run>, from: nat, passed: nat, index: nat): nat
    requires from <= |runs|
    decreases |runs| - from
  {
    if from == |runs| then 0
    else if passed + runs[from].reps > index then runs[from].offset
    else Lookup(runs, from + 1, passed + runs[from].reps, index)
  }

  lemma {:induction false} ExpandSplit(runs: seq<Run>, from: nat)
    requires from <= |runs|
    ensures Expand(runs) == Expand(runs[..from]) + Expand(runs[from..])
    decreases |runs|
  {
    var k := |runs| - 1;
    if from == |runs| {
      assert runs[..from] == runs && runs[from..] == [];
    } else {
      ExpandSplit(runs[..k], from);
      assert runs[..k][..from] == runs[..from] && runs[..k][from..] == runs[from..][..k - from];
    }
  }

  /** Looking up an index in the runs is indexing the plain array. */
  lemma {:induction false} LookupExact(runs: seq<Run>, from: nat, index: nat)
    requires from <= |runs| && |Expand(runs[..from])| <= index
    ensures Lookup(runs, from, |Expand(runs[..from])|, index) == if index < |Expand(runs)| then Expand(runs)[index] else 0
    decreases |runs| - from
  {
    if from == |runs| {
      assert runs[..from] == runs;
    } else {
      assert runs[..from + 1][..from] == runs[..from];
      if |Expand(runs[..from])| + runs[from].reps > index {
        ExpandSplit(runs, from + 1);
      } else {
        LookupExact(runs, from + 1, index);
      }
    }
  }

  class Chunk {
    var code: seq<Byte>
    var constants: seq<MValue>
    var offsets: seq<Run>
    /** The position supplied with each byte. */
    ghost var supplied: seq<nat>

    ghost predicate Valid()
      reads this
    {
      |supplied| == |code| && Expand(offsets) == supplied && Compact(offsets)
    }

    constructor ()
      ensures Valid() && code == [] && constants == []
    {
      code, constants, offsets, supplied := [], [], [], [];
    }

    method WriteOffset(offset: nat, rangeCount: nat)
      modifies `offsets
      ensures offsets == Record(old(offsets), offset, rangeCount)
    {
      if offsets == [] {
        offsets := [Run(offset, rangeCount)];
        return;
      }
      var back := offsets[|offsets| - 1];
      if back.offset == offset {
        offsets := offsets[|offsets| - 1 := back.(reps := back.reps + rangeCount)];
      } else {
        offsets := offsets + [Run(offset, rangeCount)];
      }
    }

    method WriteByte(b: Byte, offset: nat)
      requires Valid()
      modifies `code, `offsets, `supplied
      ensures Valid() && code == old(code) + [b] && supplied == old(supplied) + [offset]
    {
      RecordExpands(offsets, offset, 1);
      RecordCompact(offsets, offset, 1);
      code := code + [b];
      WriteOffset(offset, 1);
      supplied := supplied + [offset];
    }

    method WriteBytes(bytes: seq<Byte>, offset: nat)
      requires Valid()
      modifies `code, `offsets, `supplied
      ensures Valid() && code == old(code) + bytes && supplied == old(supplied) + Repeat(offset, |bytes|)
    {
      RecordExpands(offsets, offset, |bytes|);
      RecordCompact(offsets, offset, |bytes|);
      code := code + bytes;
      WriteOffset(offset, |bytes|);
      supplied := supplied + Repeat(offset, |bytes|);
    }

    /** Patching changes bytes in place and no position. */
    method Patch(bytes: seq<Byte>, position: nat)
      requires Valid() && position + |bytes| <= |code|
      modifies `code
      ensures Valid() && |code| == |old(code)|
      ensures forall i :: 0 <= i < |code| ==>
                code[i] == if position <= i < position + |bytes| then bytes[i - position] else old(code)[i]
    {
      for i := 0 to |bytes|
        invariant |code| == |old(code)|
        invariant forall j :: 0 <= j < |code| ==>
                    code[j] == if position <= j < position + i then bytes[j - position] else old(code)[j]
      {
        code := code[position + i := bytes[i]];
      }
    }

    method WriteConstant(v: MValue, offset: nat)
      requires Valid()
      modifies this
      ensures Valid() && constants == old(constants) + [v] && code == old(code) + ConstBytes(|old(constants)|)
      ensures supplied == old(supplied) + Repeat(offset, |code| - |old(code)|)
    {
      constants := constants + [v];
      var index := |constants| - 1;
      if index <= 255 {
        WriteByte(OP_CONSTANT, offset);
        WriteByte(index, offset);
      } else if index <= UINT24_MAX {
        WriteByte(OP_CONSTANT_LONG, offset);
        var operand := EncodeIntLoop(index, 3);
        WriteBytes(operand, offset);
      }
    }

    /** The position of a byte: the one supplied when it was written. */
    method GetOffset(index: nat) returns (offset: nat)
      requires Valid()
      ensures offset == if index < |code| then supplied[index] else 0
    {
      assert offsets[..0] == [];
      LookupExact(offsets, 0, index);
      var passed: nat := 0;
      for i := 0 to |offsets|
        invariant Lookup(offsets, i, passed, index) == Lookup(offsets, 0, 0, index)
      {
        passed := passed + offsets[i].reps;
        if passed > index {
          return offsets[i].offset;
        }
      }
      return 0;
    }
  }
}
