// What the simulated memory holds and what is read from it, said of byte
// addresses and without running anything: a word is 77 if some earlier request
// wrote it, and otherwise what the program put there.
module Words {
  import opened SequentialMemory

  // Some request before number k writes the word.
  ghost predicate Written(ops: seq<Access>, k: nat, word: nat)
    requires k <= |ops|
  {
    exists j: nat :: j < k && ops[j].request.Write? && ops[j].address / 4 == word
  }

  ghost function WordBefore(program: Dram, ops: seq<Access>, k: nat, word: nat): nat
    requires k <= |ops| && word < 16384
  {
    if Written(ops, k, word) then 77 else program[word]
  }

  // How many reads there are before request k.
  function ReadsBefore(ops: seq<Access>, k: nat): nat
    requires k <= |ops|
  {
    if k == 0 then 0 else ReadsBefore(ops, k - 1) + if ops[k - 1].request.Read? then 1 else 0
  }

  // The words received are those the reads ask for, in order.
  ghost predicate ReadsAnswered(program: Dram, ops: seq<Access>, received: seq<nat>) {
    forall k :: 0 <= k < |ops| && ops[k].request.Read? && ReadsBefore(ops, k) < |received| ==>
      received[ReadsBefore(ops, k)] == WordBefore(program, ops, k, ops[k].address / 4)
  }

  // The memory after the first k requests.
  ghost predicate HoldsWords(program: Dram, ops: seq<Access>, k: nat, dram: Dram)
    requires k <= |ops|
  {
    forall word :: 0 <= word < 16384 ==> dram[word] == WordBefore(program, ops, k, word)
  }

  lemma WrittenBefore(ops: seq<Access>, k: nat, word: nat)
    requires 0 < k <= |ops|
    ensures Written(ops, k, word) <==>
      Written(ops, k - 1, word) || (ops[k - 1].request.Write? && ops[k - 1].address / 4 == word)
  {
  }

  lemma {:induction false} MemoryAfter(program: Dram, ops: seq<Access>, k: nat)
    requires k <= |ops|
    ensures HoldsWords(program, ops, k, ApplyAll(program, ops[..k]))
    decreases k
  {
    if k > 0 {
      MemoryAfter(program, ops, k - 1);
      assert ops[..k][..k - 1] == ops[..k - 1];
      forall word | 0 <= word < 16384
        ensures ApplyAll(program, ops[..k])[word] == WordBefore(program, ops, k, word)
      {
        WrittenBefore(ops, k, word);
      }
    }
  }

  lemma {:induction false} ReadsBeforeGrows(ops: seq<Access>, j: nat, k: nat)
    requires j < k <= |ops|
    ensures ReadsBefore(ops, j) + (if ops[j].request.Read? then 1 else 0) <= ReadsBefore(ops, k)
    decreases k
  {
    if j < k - 1 {
      ReadsBeforeGrows(ops, j, k - 1);
    }
  }

  lemma {:induction false} ReadsAfter(program: Dram, ops: seq<Access>, k: nat)
    requires k <= |ops|
    ensures |ReadsOf(program, ops[..k])| == ReadsBefore(ops, k)
    ensures forall j :: 0 <= j < k && ops[j].request.Read? ==>
      && ReadsBefore(ops, j) < ReadsBefore(ops, k)
      && ReadsOf(program, ops[..k])[ReadsBefore(ops, j)] == WordBefore(program, ops, j, ops[j].address / 4)
    decreases k
  {
    if k > 0 {
      ReadsAfter(program, ops, k - 1);
      MemoryAfter(program, ops, k - 1);
      assert ops[..k][..k - 1] == ops[..k - 1];
    }
  }

  lemma AllReads(program: Dram, ops: seq<Access>, received: seq<nat>)
    requires received <= ReadsOf(program, ops)
    ensures |received| <= ReadsBefore(ops, |ops|) && ReadsAnswered(program, ops, received)
    ensures received == ReadsOf(program, ops) ==> |received| == ReadsBefore(ops, |ops|)
  {
    ReadsAfter(program, ops, |ops|);
    assert ops[..|ops|] == ops;
  }

  lemma {:induction false} ReadsOfPrefix(d: Dram, ops: seq<Access>, k: nat)
    requires k <= |ops|
    ensures ReadsOf(d, ops[..k]) <= ReadsOf(d, ops)
    decreases |ops|
  {
    if k == |ops| {
      assert ops[..k] == ops;
    } else {
      assert ops[..|ops| - 1][..k] == ops[..k];
      ReadsOfPrefix(d, ops[..|ops| - 1], k);
    }
  }

  // ----- rows and delays -----

  // A row is 1024 consecutive bytes, and there are as many as are refreshed.
  lemma RowIsKilobyte(a: Access)
    ensures Row(a.address) == a.address / 1024 < ROWS
  {
  }

  // The delay of the read at position k, in numbers.
  lemma DelayIs(mode: Mode, ops: seq<Access>, k: nat)
    requires k < |ops|
    ensures Latency(mode, ops, k) ==
      if mode.Default? || k == 0 then 15
      else if ops[k].address / 1024 == ops[k - 1].address / 1024 then 7
      else 23
  {
    RowIsKilobyte(ops[k]);
    if k > 0 {
      RowIsKilobyte(ops[k - 1]);
    }
  }
}
