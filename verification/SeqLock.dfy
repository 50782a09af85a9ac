/** The SeqLock of the snapshot tables: one writer, any number of readers, every field stored and
    loaded on its own, in any interleaving under sequential consistency. */
module SeqLock {

  /** The writer between its two counter updates has stored the first `next` fields of `value`;
      `seqNo` is the odd number its first update returned. */
  datatype Writer<V> = Idle | Writing(value: seq<V>, next: nat, seqNo: nat)

  /** A reader after its first load: the number it saw, the fields it has copied, and the copied counter word,
      if any. */
  datatype Reader<V> = Waiting | Reading(seq1: nat, got: map<nat, V>, word: map<nat, nat>)

  /** A read that left by the `seq1 == seq2` path. */
  datatype Read<V> = Read(seqNo: nat, value: map<nat, V>, word: map<nat, nat>)

  /** `base` is the counter at the start; `counter` and `fields` are the shared memory; `written` lists the initial
      value and every completed write, `results` the successful reads of all readers, in order. */
  datatype State<V> = State(base: nat, counter: nat, fields: seq<V>, writer: Writer<V>, readers: seq<Reader<V>>,
                            written: seq<seq<V>>, results: seq<Read<V>>)

  datatype Step<V> =
    | BeginWrite(value: seq<V>)
    | StoreField
    | EndWrite
    | LoadFirst(r: nat)
    | CopyField(r: nat, i: nat)
    | CopyWord(r: nat)
    | LoadSecond(r: nat)
    | GiveUp(r: nat)

  predicate Enabled<V>(s: State<V>, step: Step<V>) {
    match step
    case BeginWrite(v) => s.writer.Idle? && |v| == |s.fields|
    case StoreField => s.writer.Writing? && s.writer.next < |s.fields| && s.writer.next < |s.writer.value|
    case EndWrite => s.writer.Writing? && s.writer.next == |s.fields|
    case LoadFirst(r) => r < |s.readers| && s.readers[r].Waiting?
    case CopyField(r, i) => r < |s.readers| && s.readers[r].Reading? && i < |s.fields|
    case CopyWord(r) => r < |s.readers| && s.readers[r].Reading?
    case LoadSecond(r) =>
      r < |s.readers| && s.readers[r].Reading? && forall i :: 0 <= i < |s.fields| ==> i in s.readers[r].got
    case GiveUp(r) => r < |s.readers|
  }

  function Do<V>(s: State<V>, step: Step<V>): State<V>
    requires Enabled(s, step)
  {
    match step
    case BeginWrite(v) => s.(counter := s.counter + 1, writer := Writing(v, 0, s.counter + 1))
    case StoreField =>
      s.(fields := s.fields[s.writer.next := s.writer.value[s.writer.next]],
         writer := s.writer.(next := s.writer.next + 1))
    case EndWrite => s.(counter := s.writer.seqNo + 1, writer := Idle, written := s.written + [s.writer.value])
    case LoadFirst(r) =>
      if s.counter % 2 != 0 then s else s.(readers := s.readers[r := Reading(s.counter, map[], map[])])
    case CopyField(r, i) =>
      var rd := s.readers[r];
      s.(readers := s.readers[r := rd.(got := rd.got[i := s.fields[i]])])
    case CopyWord(r) =>
      var rd := s.readers[r];
      s.(readers := s.readers[r := rd.(word := rd.word[0 := s.counter])])
    case LoadSecond(r) =>
      var rd := s.readers[r];
      var s1 := s.(readers := s.readers[r := Waiting]);
      if s.counter == rd.seq1 then s1.(results := s.results + [Read(rd.seq1, rd.got, rd.word)]) else s1
    case GiveUp(r) => s.(readers := s.readers[r := Waiting])
  }

  /** A cell at rest: an even counter, nothing in progress. */
  ghost predicate Init<V>(s: State<V>) {
    && s.counter == s.base && s.base % 2 == 0 && s.writer.Idle? && s.written == [s.fields] && s.results == []
    && forall r :: 0 <= r < |s.readers| ==> s.readers[r].Waiting?
  }

  // ---------- The invariant ----------

  /** While write number `k` is being stored, its first fields are new and the rest still those of write `k - 1`. */
  ghost predicate MemoryOk<V>(s: State<V>) {
    && s.written != [] && s.base % 2 == 0
    && |s.written[|s.written| - 1]| == |s.fields|
    && match s.writer
       case Idle => s.counter == s.base + 2 * (|s.written| - 1) && s.fields == s.written[|s.written| - 1]
       case Writing(v, next, seqNo) =>
         && s.counter == seqNo == s.base + 2 * (|s.written| - 1) + 1
         && next <= |v| == |s.fields|
  }

  ghost predicate NextFieldsOk<V>(s: State<V>) {
    s.writer.Writing? ==>
      forall i :: 0 <= i < s.writer.next && i < |s.fields| && i < |s.writer.value| ==> s.fields[i] == s.writer.value[i]
  }

  /** A reader whose number is still current has only copied fields of that complete write. */
  ghost predicate ReaderOk<V>(s: State<V>, r: nat)
    requires r < |s.readers|
  {
    s.readers[r].Reading? ==>
      var rd := s.readers[r];
      && rd.seq1 % 2 == 0 && s.base <= rd.seq1 <= s.counter
      && (rd.seq1 == s.counter ==>
            && (forall i :: i in rd.got ==> i < |s.fields| && rd.got[i] == s.fields[i])
            && (forall w :: w in rd.word ==> rd.word[w] == s.counter))
  }

  /** A successful read is exactly one complete write, and so is the copied counter word. */
  ghost predicate ReadOk<V>(s: State<V>, k: nat)
    requires k < |s.results|
  {
    var rd := s.results[k];
    && rd.seqNo % 2 == 0 && s.base <= rd.seqNo <= s.counter
    && (rd.seqNo - s.base) / 2 < |s.written| && |s.written[(rd.seqNo - s.base) / 2]| == |s.fields|
    && IsValue(rd.value, s.written[(rd.seqNo - s.base) / 2])
    && (forall w :: w in rd.word ==> rd.word[w] == rd.seqNo)
  }

  ghost predicate IsValue<V>(got: map<nat, V>, value: seq<V>) {
    forall i :: 0 <= i < |value| ==> i in got && got[i] == value[i]
  }

  /** Successful reads never go back in write order. */
  ghost predicate ReadsInOrder<V>(s: State<V>, j: nat, k: nat)
    requires j < k < |s.results|
  {
    s.results[j].seqNo <= s.results[k].seqNo
  }

  ghost predicate Inv<V>(s: State<V>) {
    && MemoryOk(s) && NextFieldsOk(s)
    && (forall r :: 0 <= r < |s.readers| ==> ReaderOk(s, r))
    && (forall k :: 0 <= k < |s.results| ==> ReadOk(s, k))
    && (forall j, k :: 0 <= j < k < |s.results| ==> ReadsInOrder(s, j, k))
  }

  lemma WriterStepKeeps<V>(s: State<V>, step: Step<V>)
    requires Inv(s) && Enabled(s, step) && (step.BeginWrite? || step.StoreField? || step.EndWrite?)
    ensures Inv(Do(s, step))
  {
    var t := Do(s, step);
    if step.EndWrite? {
      assert s.fields == s.writer.value;
    }
    assert s.written <= t.written;
    forall r | 0 <= r < |t.readers|
      ensures ReaderOk(t, r)
    {
      assert ReaderOk(s, r);
    }
    forall k | 0 <= k < |t.results|
      ensures ReadOk(t, k)
    {
      assert ReadOk(s, k);
    }
    forall j, k | 0 <= j < k < |t.results|
      ensures ReadsInOrder(t, j, k)
    {
      assert ReadsInOrder(s, j, k);
    }
  }

  lemma ReaderStepKeeps<V>(s: State<V>, step: Step<V>)
    requires Inv(s) && Enabled(s, step) && !(step.BeginWrite? || step.StoreField? || step.EndWrite?)
    ensures Inv(Do(s, step))
  {
    var t := Do(s, step);
    var r := step.r;
    assert ReaderOk(s, r);
    forall q | 0 <= q < |t.readers|
      ensures ReaderOk(t, q)
    {
      assert ReaderOk(s, q);
    }
    forall k | 0 <= k < |t.results|
      ensures ReadOk(t, k)
    {
      if k < |s.results| { assert ReadOk(s, k); } else { SuccessfulRead(s, r); }
    }
    forall j, k | 0 <= j < k < |t.results|
      ensures ReadsInOrder(t, j, k)
    {
      if k < |s.results| { assert ReadsInOrder(s, j, k); } else { assert ReadOk(s, j); }
    }
  }

  /** A reader that sees its number again sees an idle writer, so its fields are the last complete write. */
  lemma SuccessfulRead<V>(s: State<V>, r: nat)
    requires Inv(s) && r < |s.readers| && Enabled(s, LoadSecond(r)) && s.counter == s.readers[r].seq1
    ensures IsValue(s.readers[r].got, s.written[(s.counter - s.base) / 2])
  {
    assert ReaderOk(s, r);
    assert s.writer.Idle?;
    assert s.written[(s.counter - s.base) / 2] == s.fields;
  }

  // ---------- Whole runs ----------

  ghost predicate IsRun<V>(s: State<V>, steps: seq<Step<V>>)
    decreases |steps|
  {
    steps != [] ==> Enabled(s, steps[0]) && IsRun(Do(s, steps[0]), steps[1..])
  }

  function Run<V>(s: State<V>, steps: seq<Step<V>>): State<V>
    requires IsRun(s, steps)
    decreases |steps|
  {
    if steps == [] then s else Run(Do(s, steps[0]), steps[1..])
  }

  lemma {:induction false} RunKeeps<V>(s: State<V>, steps: seq<Step<V>>)
    requires Inv(s) && IsRun(s, steps)
    ensures Inv(Run(s, steps))
    decreases |steps|
  {
    if steps != [] {
      var step := steps[0];
      if step.BeginWrite? || step.StoreField? || step.EndWrite? {
        WriterStepKeeps(s, step);
      } else {
        ReaderStepKeeps(s, step);
      }
      RunKeeps(Do(s, step), steps[1..]);
    }
  }

  /** SeqLock safety. In every interleaving of field-by-field writes and reads, each read that leaves by the
      equal-and-even path returns exactly the value of one complete write, with the copied counter word equal
      to its number, and later successful reads never return earlier writes. */
  lemma ReadsAreCompleteWrites<V>(s: State<V>, steps: seq<Step<V>>)
    requires Init(s) && IsRun(s, steps)
    ensures var t := Run(s, steps);
            && (forall k :: 0 <= k < |t.results| ==> ReadOk(t, k))
            && (forall j, k :: 0 <= j < k < |t.results| ==> ReadsInOrder(t, j, k))
  {
    RunKeeps(s, steps);
  }

  /** Two successful reads of a cell with the same number hold the same fields. */
  lemma EqualNumbersEqualFields<V>(s: State<V>, steps: seq<Step<V>>, j: nat, k: nat)
    requires Init(s) && IsRun(s, steps) && j < |Run(s, steps).results| && k < |Run(s, steps).results|
    requires Run(s, steps).results[j].seqNo == Run(s, steps).results[k].seqNo
    ensures var t := Run(s, steps);
            forall i :: 0 <= i < |t.fields| ==>
              i in t.results[j].value && i in t.results[k].value && t.results[j].value[i] == t.results[k].value[i]
  {
    ReadsAreCompleteWrites(s, steps);
    var t := Run(s, steps);
    assert ReadOk(t, j) && ReadOk(t, k);
  }
}
