/**
 * The selector: reads the transformed stream in blocks of `k` digits from
 * a cursor, turns each block into a candidate word index and keeps the
 * word when the index is in range and not already used, until every word
 * is used or no full block remains.
 */
module Selection {
  import opened Lib
  import opened DigitStream

  /** One accepted block: cursor position, block text, 1-based word index, word. */
  datatype Record = Record(pos: nat, block: string, index: nat, word: string)

  /** The loop's variables: cursor `i`, `usados`, `resultado`, `registros`. */
  datatype State = State(i: nat, usados: set<int>, resultado: seq<string>, registros: seq<Record>)

  /** `int(block)` for a block of decimal digits; leading zeros are allowed. */
  function BlockValue(block: string): nat
    requires AllDigits(block)
  {
    if block == [] then 0
    else
      var init := block[..|block| - 1];
      assert AllDigits(init);
      BlockValue(init) * 10 + (block[|block| - 1] as int - '0' as int)
  }

  function Pow10(n: nat): nat
  {
    if n == 0 then 1 else 10 * Pow10(n - 1)
  }

  /** A block of k digits reads as a number below 10^k, so Directo, Inverso and Espaciado indices stay below 10^k - 1. */
  lemma {:induction false} BlockValueBound(block: string)
    requires AllDigits(block)
    ensures BlockValue(block) < Pow10(|block|)
  {
    if block != [] {
      var init := block[..|block| - 1];
      assert AllDigits(init);
      BlockValueBound(init);
    }
  }

  /** Leading zeros are read as such: "0001" is 1 and "010" is 10. */
  lemma BlockValueExamples()
    ensures BlockValue("0001") == 1 && BlockValue("010") == 10
  {
    assert "0001"[..3] == "000" && "000"[..2] == "00" && "00"[..1] == "0" && "0"[..0] == [];
    assert "010"[..2] == "01" && "01"[..1] == "0";
  }

  /** The candidate word index of a block value: `% total` in Modular mode, minus one otherwise. */
  function CandidateIndex(bloque: nat, mode: Mode, total: nat): (idx: int)
    requires mode == Modular ==> total > 0
    ensures mode == Modular ==> 0 <= idx < total
    ensures mode != Modular ==> idx + 1 == bloque
  {
    if mode == Modular then bloque % total else bloque - 1
  }

  /** The loop guard. */
  predicate Continues(st: State, stream: string, k: nat, total: nat)
  {
    |st.usados| < total && st.i + k <= |stream|
  }

  /** One iteration of the loop body. */
  function Step(st: State, stream: string, k: nat, palabras: seq<string>, mode: Mode): (st': State)
    requires AllDigits(stream)
    requires Continues(st, stream, k, |palabras|)
    ensures st'.i == st.i + k
  {
    var block := BlockAt(st, stream, k);
    var idx := CandidateIndex(BlockValue(block), mode, |palabras|);
    if 0 <= idx < |palabras| && idx !in st.usados then
      State(st.i + k, st.usados + {idx}, st.resultado + [palabras[idx]],
            st.registros + [Record(st.i, block, idx + 1, palabras[idx])])
    else
      State(st.i + k, st.usados, st.resultado, st.registros)
  }

  /** The loop run to its end from state st. */
  function Run(st: State, stream: string, k: nat, palabras: seq<string>, mode: Mode): (r: State)
    requires AllDigits(stream) && k >= 1
    ensures !Continues(r, stream, k, |palabras|)
    ensures r.i >= st.i
    decreases |stream| - st.i
  {
    if Continues(st, stream, k, |palabras|) then Run(Step(st, stream, k, palabras, mode), stream, k, palabras, mode)
    else st
  }

  function Init(start: nat): State
  {
    State(start, {}, [], [])
  }

  /** What a record says of the block it was made from. */
  ghost predicate RecordAt(r: Record, stream: string, start: nat, k: nat, palabras: seq<string>, mode: Mode)
  {
    && start <= r.pos && r.pos + k <= |stream| && Aligned(r.pos, start, k)
    && r.block == stream[r.pos..r.pos + k]
    && 1 <= r.index <= |palabras|
    && r.word == palabras[r.index - 1]
    && AllDigits(r.block)
    && (mode != Modular || |palabras| > 0)
    && CandidateIndex(BlockValue(r.block), mode, |palabras|) == r.index - 1
  }

  /** p lies a whole number of blocks after start. */
  ghost predicate Aligned(p: nat, start: nat, k: nat)
    decreases p
  {
    p == start || (k >= 1 && p >= start + k && Aligned(p - k, start, k))
  }

  /** Cursor and sizes. */
  ghost predicate CursorOk(st: State, stream: string, start: nat, k: nat, palabras: seq<string>)
  {
    && Aligned(st.i, start, k)
    && (st.i == start || st.i <= |stream|)
    && |st.resultado| == |st.registros| == |st.usados|
    && (forall x :: x in st.usados ==> 0 <= x < |palabras|)
  }

  /** Every record describes its block, and matches the word selected with it and a used index. */
  ghost predicate RecordsOk(st: State, stream: string, start: nat, k: nat, palabras: seq<string>, mode: Mode)
  {
    && |st.resultado| == |st.registros|
    && (forall j :: 0 <= j < |st.registros| ==>
          && RecordAt(st.registros[j], stream, start, k, palabras, mode)
          && st.resultado[j] == st.registros[j].word
          && st.registros[j].index - 1 in st.usados)
  }

  /** The 0-based word indices that a sequence of records names. */
  ghost function RecordIndices(rs: seq<Record>): set<int>
  {
    if rs == [] then {} else RecordIndices(rs[..|rs| - 1]) + {rs[|rs| - 1].index - 1}
  }

  /** The used set is exactly the set of recorded indices. */
  ghost predicate UsedRecorded(st: State)
  {
    st.usados == RecordIndices(st.registros)
  }

  /** An index is recorded exactly when some record names it. */
  lemma {:induction false} RecordIndicesMembers(rs: seq<Record>, x: int)
    ensures x in RecordIndices(rs) <==> exists j :: 0 <= j < |rs| && rs[j].index == x + 1
  {
    if rs != [] {
      var init := rs[..|rs| - 1];
      RecordIndicesMembers(init, x);
      if exists j :: 0 <= j < |init| && init[j].index == x + 1 {
        var j :| 0 <= j < |init| && init[j].index == x + 1;
        assert rs[j] == init[j];
      }
      if exists j :: 0 <= j < |rs| && rs[j].index == x + 1 {
        var j :| 0 <= j < |rs| && rs[j].index == x + 1;
        if j < |init| {
          assert init[j] == rs[j];
        }
      }
    }
  }

  /** Records are in cursor order with distinct indices, all behind the cursor. */
  ghost predicate RecordsOrdered(st: State, k: nat, total: nat)
  {
    var rs := st.registros;
    && (forall a, b :: 0 <= a < b < |rs| ==> rs[a].pos < rs[b].pos && rs[a].index != rs[b].index)
    && (|rs| > 0 ==> rs[|rs| - 1].pos + k <= st.i)
    && (|st.usados| == total > 0 ==> |rs| > 0 && rs[|rs| - 1].pos + k == st.i)
  }

  /** The invariant the loop keeps. */
  ghost predicate Consistent(st: State, stream: string, start: nat, k: nat, palabras: seq<string>, mode: Mode)
  {
    && CursorOk(st, stream, start, k, palabras)
    && RecordsOk(st, stream, start, k, palabras, mode)
    && UsedRecorded(st)
    && RecordsOrdered(st, k, |palabras|)
  }

  lemma InitConsistent(stream: string, start: nat, k: nat, palabras: seq<string>, mode: Mode)
    requires k >= 1
    ensures Consistent(Init(start), stream, start, k, palabras, mode)
  {
  }

  /** The block read at the cursor, and whether the loop body accepts it. */
  function BlockAt(st: State, stream: string, k: nat): string
    requires st.i + k <= |stream|
  {
    stream[st.i..st.i + k]
  }

  /** The record the body appends when it accepts the block at the cursor. */
  lemma StepShape(st: State, stream: string, k: nat, palabras: seq<string>, mode: Mode)
    requires AllDigits(stream) && k >= 1
    requires Continues(st, stream, k, |palabras|)
    ensures AllDigits(BlockAt(st, stream, k))
    ensures var block := BlockAt(st, stream, k);
      var idx := CandidateIndex(BlockValue(block), mode, |palabras|);
      Step(st, stream, k, palabras, mode) ==
        if 0 <= idx < |palabras| && idx !in st.usados then
          State(st.i + k, st.usados + {idx}, st.resultado + [palabras[idx]],
                st.registros + [Record(st.i, block, idx + 1, palabras[idx])])
        else
          State(st.i + k, st.usados, st.resultado, st.registros)
  {
    var block := BlockAt(st, stream, k);
    forall m | 0 <= m < |block| ensures IsDigit(block[m]) {
      assert block[m] == stream[st.i + m];
    }
  }

  lemma StepCursorOk(st: State, stream: string, start: nat, k: nat, palabras: seq<string>, mode: Mode)
    requires AllDigits(stream) && k >= 1
    requires Continues(st, stream, k, |palabras|)
    requires CursorOk(st, stream, start, k, palabras)
    ensures CursorOk(Step(st, stream, k, palabras, mode), stream, start, k, palabras)
  {
    StepShape(st, stream, k, palabras, mode);
  }

  lemma StepRecordsOk(st: State, stream: string, start: nat, k: nat, palabras: seq<string>, mode: Mode)
    requires AllDigits(stream) && k >= 1
    requires Continues(st, stream, k, |palabras|)
    requires Aligned(st.i, start, k)
    requires RecordsOk(st, stream, start, k, palabras, mode)
    ensures RecordsOk(Step(st, stream, k, palabras, mode), stream, start, k, palabras, mode)
  {
    StepShape(st, stream, k, palabras, mode);
    var st' := Step(st, stream, k, palabras, mode);
    if |st'.registros| > |st.registros| {
      var r := st'.registros[|st.registros|];
      assert RecordAt(r, stream, start, k, palabras, mode);
    }
  }

  lemma StepUsedRecorded(st: State, stream: string, k: nat, palabras: seq<string>, mode: Mode)
    requires AllDigits(stream) && k >= 1
    requires Continues(st, stream, k, |palabras|)
    requires UsedRecorded(st)
    ensures UsedRecorded(Step(st, stream, k, palabras, mode))
  {
    StepShape(st, stream, k, palabras, mode);
    var st' := Step(st, stream, k, palabras, mode);
    if |st'.registros| > |st.registros| {
      assert st'.registros[..|st.registros|] == st.registros;
    }
  }

  lemma StepRecordsOrdered(st: State, stream: string, start: nat, k: nat, palabras: seq<string>, mode: Mode)
    requires AllDigits(stream) && k >= 1
    requires Continues(st, stream, k, |palabras|)
    requires |st.usados| == |st.registros|
    requires forall j :: 0 <= j < |st.registros| ==> st.registros[j].index - 1 in st.usados
    requires RecordsOrdered(st, k, |palabras|)
    ensures RecordsOrdered(Step(st, stream, k, palabras, mode), k, |palabras|)
  {
    StepShape(st, stream, k, palabras, mode);
  }

  /** One iteration keeps the invariant. */
  lemma StepConsistent(st: State, stream: string, start: nat, k: nat, palabras: seq<string>, mode: Mode)
    requires AllDigits(stream) && k >= 1
    requires Continues(st, stream, k, |palabras|)
    requires Consistent(st, stream, start, k, palabras, mode)
    ensures CursorOk(Step(st, stream, k, palabras, mode), stream, start, k, palabras)
    ensures RecordsOk(Step(st, stream, k, palabras, mode), stream, start, k, palabras, mode)
    ensures UsedRecorded(Step(st, stream, k, palabras, mode))
    ensures RecordsOrdered(Step(st, stream, k, palabras, mode), k, |palabras|)
  {
    StepCursorOk(st, stream, start, k, palabras, mode);
    StepRecordsOk(st, stream, start, k, palabras, mode);
    StepUsedRecorded(st, stream, k, palabras, mode);
    StepRecordsOrdered(st, stream, start, k, palabras, mode);
  }

  /** Running the loop to its end keeps the invariant. */
  lemma {:induction false} RunConsistent(st: State, stream: string, start: nat, k: nat, palabras: seq<string>, mode: Mode)
    requires AllDigits(stream) && k >= 1
    requires Consistent(st, stream, start, k, palabras, mode)
    ensures Consistent(Run(st, stream, k, palabras, mode), stream, start, k, palabras, mode)
    decreases |stream| - st.i
  {
    if Continues(st, stream, k, |palabras|) {
      StepConsistent(st, stream, start, k, palabras, mode);
      RunConsistent(Step(st, stream, k, palabras, mode), stream, start, k, palabras, mode);
    }
  }

  /** A whole run from cursor `start` keeps the invariant. */
  lemma RunFromInit(stream: string, start: nat, k: nat, palabras: seq<string>, mode: Mode)
    requires AllDigits(stream) && k >= 1
    ensures Consistent(Run(Init(start), stream, k, palabras, mode), stream, start, k, palabras, mode)
  {
    InitConsistent(stream, start, k, palabras, mode);
    RunConsistent(Init(start), stream, start, k, palabras, mode);
  }

  /**
   * `usados` holds indices in [0, total), exactly the recorded ones, and
   * there are as many of them as selected words and records, at most total.
   */
  lemma SelectionIndices(stream: string, start: nat, k: nat, palabras: seq<string>, mode: Mode)
    requires AllDigits(stream) && k >= 1
    ensures var r := Run(Init(start), stream, k, palabras, mode);
      && (forall x :: x in r.usados ==> 0 <= x < |palabras|)
      && r.usados == RecordIndices(r.registros)
      && (forall x :: x in r.usados <==> exists j :: 0 <= j < |r.registros| && r.registros[j].index == x + 1)
      && |r.resultado| == |r.registros| == |r.usados| <= |palabras|
  {
    var r := Run(Init(start), stream, k, palabras, mode);
    RunFromInit(stream, start, k, palabras, mode);
    RangeCardinality(r.usados, |palabras|);
    forall x ensures x in r.usados <==> exists j :: 0 <= j < |r.registros| && r.registros[j].index == x + 1 {
      RecordIndicesMembers(r.registros, x);
    }
  }

  /**
   * Record j is (position, the block text there, idx + 1, palabras[idx])
   * for the block's candidate index idx, and its word is selected word j.
   */
  lemma SelectionRecords(stream: string, start: nat, k: nat, palabras: seq<string>, mode: Mode)
    requires AllDigits(stream) && k >= 1
    ensures var r := Run(Init(start), stream, k, palabras, mode);
      |r.resultado| == |r.registros| &&
      forall j :: 0 <= j < |r.registros| ==>
        && RecordAt(r.registros[j], stream, start, k, palabras, mode)
        && r.resultado[j] == r.registros[j].word == palabras[r.registros[j].index - 1]
  {
    RunFromInit(stream, start, k, palabras, mode);
  }

  /** Recorded positions strictly increase and no index is recorded twice. */
  lemma SelectionOrdered(stream: string, start: nat, k: nat, palabras: seq<string>, mode: Mode)
    requires AllDigits(stream) && k >= 1
    ensures var rs := Run(Init(start), stream, k, palabras, mode).registros;
      forall a, b :: 0 <= a < b < |rs| ==> rs[a].pos < rs[b].pos && rs[a].index != rs[b].index
  {
    RunFromInit(stream, start, k, palabras, mode);
  }

  /**
   * The loop stops because every word is used or no full block remains,
   * after advancing the cursor by whole blocks over full blocks only; when
   * it stops because every word is used, it stops right after the block
   * that used the last one.
   */
  lemma SelectionStops(stream: string, start: nat, k: nat, palabras: seq<string>, mode: Mode)
    requires AllDigits(stream) && k >= 1
    ensures var r := Run(Init(start), stream, k, palabras, mode);
      && (|r.usados| == |palabras| || r.i + k > |stream|)
      && Aligned(r.i, start, k)
      && (r.i == start || r.i <= |stream|)
      && (|r.usados| == |palabras| > 0 ==> |r.registros| > 0 && r.registros[|r.registros| - 1].pos + k == r.i)
  {
    SelectionIndices(stream, start, k, palabras, mode);
    RunFromInit(stream, start, k, palabras, mode);
  }

  /** With distinct words (as `limpiar_texto` gives), the selected words are distinct too. */
  lemma SelectedWordsDistinct(stream: string, start: nat, k: nat, palabras: seq<string>, mode: Mode)
    requires AllDigits(stream) && k >= 1
    requires NoDuplicates(palabras)
    ensures NoDuplicates(Run(Init(start), stream, k, palabras, mode).resultado)
    ensures forall w :: w in Run(Init(start), stream, k, palabras, mode).resultado ==> w in palabras
  {
    var r := Run(Init(start), stream, k, palabras, mode);
    SelectionRecords(stream, start, k, palabras, mode);
    SelectionOrdered(stream, start, k, palabras, mode);
    forall a, b | 0 <= a < b < |r.resultado| ensures r.resultado[a] != r.resultado[b] {
      var ia, ib := r.registros[a].index - 1, r.registros[b].index - 1;
      assert RecordAt(r.registros[a], stream, start, k, palabras, mode);
      assert RecordAt(r.registros[b], stream, start, k, palabras, mode);
      assert ia != ib;
    }
    forall w | w in r.resultado ensures w in palabras {
      var j :| 0 <= j < |r.resultado| && r.resultado[j] == w;
      assert RecordAt(r.registros[j], stream, start, k, palabras, mode);
    }
  }

  /** In Modular mode every block is accepted unless its index is already used. */
  lemma ModularRejectsOnlyRepeats(st: State, stream: string, k: nat, palabras: seq<string>)
    requires AllDigits(stream)
    requires Continues(st, stream, k, |palabras|)
    ensures var idx := BlockValue(stream[st.i..st.i + k]) % |palabras|;
      && Step(st, stream, k, palabras, Modular).usados == st.usados + {idx}
      && (idx !in st.usados <==> |Step(st, stream, k, palabras, Modular).resultado| == |st.resultado| + 1)
  {
  }

  lemma SliceDigits(s: string, lo: nat, hi: nat)
    requires lo <= hi <= |s| && AllDigits(s)
    ensures AllDigits(s[lo..hi])
  {
    forall m | 0 <= m < hi - lo ensures IsDigit(s[lo..hi][m]) {
      assert s[lo..hi][m] == s[lo + m];
    }
  }

  /** The candidate word index of the block of k digits at position p. */
  function BlockIndex(stream: string, p: nat, k: nat, palabras: seq<string>, mode: Mode): int
    requires AllDigits(stream) && p + k <= |stream|
    requires mode == Modular ==> |palabras| > 0
  {
    SliceDigits(stream, p, p + k);
    CandidateIndex(BlockValue(stream[p..p + k]), mode, |palabras|)
  }

  /** Every block read so far whose index is in range has its index used: no such block is thrown away. */
  ghost predicate Covered(st: State, stream: string, start: nat, k: nat, palabras: seq<string>, mode: Mode)
    requires AllDigits(stream)
  {
    forall p: nat :: (mode != Modular || |palabras| > 0) && start <= p && p + k <= st.i && p + k <= |stream| && Aligned(p, start, k) ==>
      (0 <= BlockIndex(stream, p, k, palabras, mode) < |palabras| ==> BlockIndex(stream, p, k, palabras, mode) in st.usados)
  }

  /** Two distinct block positions a whole number of blocks from start are at least a block apart. */
  lemma {:induction false} AlignedGap(p: nat, q: nat, start: nat, k: nat)
    requires Aligned(p, start, k) && Aligned(q, start, k) && p < q
    ensures p + k <= q
    decreases q
  {
    if p != start && q != start {
      assert Aligned(q - k, start, k);
      if p < q - k {
        AlignedGap(p, q - k, start, k);
      } else if q - k < p {
        AlignedGap(q - k, p, start, k);
      }
    }
  }

  /** One iteration keeps every in-range block index used. */
  lemma StepCovered(st: State, stream: string, start: nat, k: nat, palabras: seq<string>, mode: Mode)
    requires AllDigits(stream) && k >= 1
    requires Continues(st, stream, k, |palabras|)
    requires Aligned(st.i, start, k)
    requires Covered(st, stream, start, k, palabras, mode)
    ensures Covered(Step(st, stream, k, palabras, mode), stream, start, k, palabras, mode)
  {
    StepShape(st, stream, k, palabras, mode);
    var st' := Step(st, stream, k, palabras, mode);
    forall p: nat | (mode != Modular || |palabras| > 0) && start <= p && p + k <= st'.i && p + k <= |stream| && Aligned(p, start, k)
      ensures 0 <= BlockIndex(stream, p, k, palabras, mode) < |palabras| ==> BlockIndex(stream, p, k, palabras, mode) in st'.usados
    {
      if p + k > st.i {
        if p < st.i {
          AlignedGap(p, st.i, start, k);
        }
        assert p == st.i;
      }
    }
  }

  /** Running the loop to its end keeps every in-range block index used. */
  lemma {:induction false} RunCovered(st: State, stream: string, start: nat, k: nat, palabras: seq<string>, mode: Mode)
    requires AllDigits(stream) && k >= 1
    requires Consistent(st, stream, start, k, palabras, mode)
    requires Covered(st, stream, start, k, palabras, mode)
    ensures Covered(Run(st, stream, k, palabras, mode), stream, start, k, palabras, mode)
    decreases |stream| - st.i
  {
    if Continues(st, stream, k, |palabras|) {
      StepConsistent(st, stream, start, k, palabras, mode);
      StepCovered(st, stream, start, k, palabras, mode);
      RunCovered(Step(st, stream, k, palabras, mode), stream, start, k, palabras, mode);
    }
  }

  /**
   * The accepting half of the body's test over a whole run: every block the
   * loop read whose index is in range ends with its index used. In Modular
   * mode every index is in range, so no block is lost to the range test.
   */
  lemma SelectionCovered(stream: string, start: nat, k: nat, palabras: seq<string>, mode: Mode)
    requires AllDigits(stream) && k >= 1
    ensures var r := Run(Init(start), stream, k, palabras, mode);
      forall p: nat :: (mode != Modular || |palabras| > 0) && start <= p && p + k <= r.i && p + k <= |stream| && Aligned(p, start, k) ==>
        && (0 <= BlockIndex(stream, p, k, palabras, mode) < |palabras| ==> BlockIndex(stream, p, k, palabras, mode) in r.usados)
        && (mode == Modular ==> BlockIndex(stream, p, k, palabras, mode) in r.usados)
  {
    InitConsistent(stream, start, k, palabras, mode);
    RunCovered(Init(start), stream, start, k, palabras, mode);
  }

  /** Each record's block is the first block read with its index: no aligned block before it yields that index. */
  ghost predicate FirstOccurrence(st: State, stream: string, start: nat, k: nat, palabras: seq<string>, mode: Mode)
    requires AllDigits(stream)
  {
    forall j, p: nat ::
      (&& 0 <= j < |st.registros| && (mode != Modular || |palabras| > 0)
       && start <= p < st.registros[j].pos && p + k <= |stream| && Aligned(p, start, k)) ==>
      BlockIndex(stream, p, k, palabras, mode) != st.registros[j].index - 1
  }

  /** One iteration keeps every record at the first block with its index. */
  lemma StepFirst(st: State, stream: string, start: nat, k: nat, palabras: seq<string>, mode: Mode)
    requires AllDigits(stream) && k >= 1
    requires Continues(st, stream, k, |palabras|)
    requires Aligned(st.i, start, k)
    requires Covered(st, stream, start, k, palabras, mode)
    requires FirstOccurrence(st, stream, start, k, palabras, mode)
    ensures FirstOccurrence(Step(st, stream, k, palabras, mode), stream, start, k, palabras, mode)
  {
    StepShape(st, stream, k, palabras, mode);
    var st' := Step(st, stream, k, palabras, mode);
    if |st'.registros| > |st.registros| {
      var n := |st.registros|;
      var idx := st'.registros[n].index - 1;
      assert st'.registros[n].pos == st.i && 0 <= idx < |palabras| && idx !in st.usados;
      forall j, p: nat | 0 <= j < |st'.registros| && (mode != Modular || |palabras| > 0)
        && start <= p < st'.registros[j].pos && p + k <= |stream| && Aligned(p, start, k)
        ensures BlockIndex(stream, p, k, palabras, mode) != st'.registros[j].index - 1
      {
        if j == n {
          AlignedGap(p, st.i, start, k);
        } else {
          assert st'.registros[j] == st.registros[j];
        }
      }
    }
  }

  /** Running the loop to its end keeps every record at the first block with its index. */
  lemma {:induction false} RunFirst(st: State, stream: string, start: nat, k: nat, palabras: seq<string>, mode: Mode)
    requires AllDigits(stream) && k >= 1
    requires Consistent(st, stream, start, k, palabras, mode)
    requires Covered(st, stream, start, k, palabras, mode)
    requires FirstOccurrence(st, stream, start, k, palabras, mode)
    ensures FirstOccurrence(Run(st, stream, k, palabras, mode), stream, start, k, palabras, mode)
    decreases |stream| - st.i
  {
    if Continues(st, stream, k, |palabras|) {
      StepConsistent(st, stream, start, k, palabras, mode);
      StepCovered(st, stream, start, k, palabras, mode);
      StepFirst(st, stream, start, k, palabras, mode);
      RunFirst(Step(st, stream, k, palabras, mode), stream, start, k, palabras, mode);
    }
  }

  /**
   * The rejecting half over a whole run: a record is made at the first
   * block that yields its index, so every later block with that index was
   * rejected as already used. With `SelectionCovered` and
   * `SelectionOrdered` this fixes which blocks are accepted, and so the
   * order of the selected words.
   */
  lemma SelectionFirst(stream: string, start: nat, k: nat, palabras: seq<string>, mode: Mode)
    requires AllDigits(stream) && k >= 1
    ensures var rs := Run(Init(start), stream, k, palabras, mode).registros;
      forall j, p: nat ::
        (&& 0 <= j < |rs| && (mode != Modular || |palabras| > 0)
         && start <= p < rs[j].pos && p + k <= |stream| && Aligned(p, start, k)) ==>
        BlockIndex(stream, p, k, palabras, mode) != rs[j].index - 1
  {
    InitConsistent(stream, start, k, palabras, mode);
    RunFirst(Init(start), stream, start, k, palabras, mode);
  }

  /** Running on from the state after one iteration gives the same end state. */
  lemma RunStep(st: State, next: State, stream: string, k: nat, palabras: seq<string>, mode: Mode)
    requires AllDigits(stream) && k >= 1
    requires Continues(st, stream, k, |palabras|)
    requires next == Step(st, stream, k, palabras, mode)
    ensures Run(next, stream, k, palabras, mode) == Run(st, stream, k, palabras, mode)
  {
  }

  /** The body accepts the block: the index is used, the word and the record appended. */
  lemma StepAccepts(st: State, stream: string, k: nat, palabras: seq<string>, mode: Mode, block: string, idx: int)
    requires AllDigits(stream) && Continues(st, stream, k, |palabras|)
    requires block == BlockAt(st, stream, k) && AllDigits(block)
    requires idx == CandidateIndex(BlockValue(block), mode, |palabras|)
    requires 0 <= idx < |palabras| && idx !in st.usados
    ensures Step(st, stream, k, palabras, mode) == State(st.i + k, st.usados + {idx}, st.resultado + [palabras[idx]],
                                                         st.registros + [Record(st.i, block, idx + 1, palabras[idx])])
  {
  }

  /** The body rejects the block: only the cursor moves. */
  lemma StepRejects(st: State, stream: string, k: nat, palabras: seq<string>, mode: Mode, block: string, idx: int)
    requires AllDigits(stream) && Continues(st, stream, k, |palabras|)
    requires block == BlockAt(st, stream, k) && AllDigits(block)
    requires idx == CandidateIndex(BlockValue(block), mode, |palabras|)
    requires !(0 <= idx < |palabras| && idx !in st.usados)
    ensures Step(st, stream, k, palabras, mode) == State(st.i + k, st.usados, st.resultado, st.registros)
  {
  }

  /** The selection loop of the script, from cursor `start` over `stream`. */
  method Select(stream: string, start: nat, k: nat, palabras: seq<string>, mode: Mode)
    returns (i: nat, usados: set<int>, resultado: seq<string>, registros: seq<Record>)
    requires AllDigits(stream) && k >= 1
    ensures State(i, usados, resultado, registros) == Run(Init(start), stream, k, palabras, mode)
  {
    var total := |palabras|;
    usados, resultado, registros := {}, [], [];
    i := start;
    while |usados| < total && i + k <= |stream|
      invariant Run(State(i, usados, resultado, registros), stream, k, palabras, mode)
             == Run(Init(start), stream, k, palabras, mode)
      decreases |stream| - i
    {
      ghost var before := State(i, usados, resultado, registros);
      var block := stream[i..i + k];
      SliceDigits(stream, i, i + k);
      var bloque := BlockValue(block);
      var idx;
      if mode == Modular {
        idx := bloque % total;
      } else {
        idx := bloque - 1;
      }
      if 0 <= idx < total && idx !in usados {
        StepAccepts(before, stream, k, palabras, mode, block, idx);
        var palabra := palabras[idx];
        resultado := resultado + [palabra];
        usados := usados + {idx};
        registros := registros + [Record(i, block, idx + 1, palabra)];
      } else {
        StepRejects(before, stream, k, palabras, mode, block, idx);
      }
      i := i + k;
      RunStep(before, State(i, usados, resultado, registros), stream, k, palabras, mode);
    }
  }

  /** A three-digit block "0" d1 d2 reads as 10 * d1 + d2. */
  lemma ThreeDigitBlock(block: string)
    requires |block| == 3 && AllDigits(block) && block[0] == '0'
    ensures BlockValue(block) == 10 * (block[1] as int - '0' as int) + (block[2] as int - '0' as int)
  {
    var b2, b1 := block[..2], block[..1];
    assert b2[..1] == b1 && b1[..0] == [] && b2[1] == block[1] && b1[0] == '0';
    assert AllDigits(b2) && AllDigits(b1);
    assert BlockValue(b1) == 0;
    assert BlockValue(b2) == block[1] as int - '0' as int;
  }

  /**
   * From the j-th block of "010011012" in Modular mode with five words,
   * with words 0 .. j-1 already taken, the loop goes on to take words
   * j .. 2 and then stops.
   */
  lemma {:induction false} ModularScenarioFrom(st: State, j: nat)
    requires j <= 3 && st.i == 3 * j
    requires (forall x :: x in st.usados ==> 0 <= x < j) && |st.usados| <= j
    requires st.resultado == ["a", "b", "c", "d", "e"][..j]
    ensures Run(st, "010011012", 3, ["a", "b", "c", "d", "e"], Modular).resultado == ["a", "b", "c"]
    decreases 3 - j
  {
    var stream, ws := "010011012", ["a", "b", "c", "d", "e"];
    if j < 3 {
      var block := BlockAt(st, stream, 3);
      assert block == stream[3 * j..3 * j + 3];
      if j == 0 { assert block == "010"; }
      else if j == 1 { assert block == "011"; }
      else { assert block == "012"; }
      ThreeDigitBlock(block);
      assert BlockValue(block) == 10 + j;
      StepAccepts(st, stream, 3, ws, Modular, block, j);
      var next := Step(st, stream, 3, ws, Modular);
      assert ws[..j] + [ws[j]] == ws[..j + 1];
      ModularScenarioFrom(next, j + 1);
    } else {
      assert ws[..3] == ["a", "b", "c"];
    }
  }

  /** Modular mode over "010011012" with five words reads 10, 11 and 12 and picks words 0, 1 and 2. */
  lemma ModularScenario()
    ensures Run(Init(0), "010011012", 3, ["a", "b", "c", "d", "e"], Modular).resultado == ["a", "b", "c"]
  {
    ModularScenarioFrom(Init(0), 0);
  }

  /** A four-digit block "000d" reads as d. */
  lemma FourDigitBlock(block: string)
    requires |block| == 4 && AllDigits(block) && block[0] == block[1] == block[2] == '0'
    ensures BlockValue(block) == block[3] as int - '0' as int
  {
    var b3 := block[..3];
    assert AllDigits(b3) && b3[0] == b3[1] == b3[2] == '0';
    ThreeDigitBlock(b3);
  }

  /** Block j of the stream is three zeros and the digit j + 1. */
  predicate CountingBlock(stream: string, j: nat)
  {
    && 4 * j + 4 <= |stream|
    && stream[4 * j] == stream[4 * j + 1] == stream[4 * j + 2] == '0'
    && stream[4 * j + 3] as int - '0' as int == j + 1
  }

  /**
   * From block j of a 25-digit stream whose first five blocks read 1 .. 5,
   * in Directo mode with five words and exactly words 0 .. j-1 taken, the
   * loop takes words j .. 4 and stops once all five are used, at cursor 20.
   */
  lemma {:induction false} DirectScenarioFrom(stream: string, palabras: seq<string>, st: State, j: nat)
    requires AllDigits(stream) && |stream| == 25 && |palabras| == 5
    requires forall b: nat :: b < 5 ==> CountingBlock(stream, b)
    requires j <= 5 && st.i == 4 * j
    requires (forall x :: x in st.usados <==> 0 <= x < j) && |st.usados| == j
    requires st.resultado == palabras[..j]
    ensures var r := Run(st, stream, 4, palabras, Directo);
      r.resultado == palabras && r.i == 20
    decreases 5 - j
  {
    if j < 5 {
      var block := BlockAt(st, stream, 4);
      assert CountingBlock(stream, j);
      assert block[0] == stream[4 * j] && block[1] == stream[4 * j + 1] && block[2] == stream[4 * j + 2];
      assert block[3] == stream[4 * j + 3];
      SliceDigits(stream, 4 * j, 4 * j + 4);
      FourDigitBlock(block);
      StepAccepts(st, stream, 4, palabras, Directo, block, j);
      var next := Step(st, stream, 4, palabras, Directo);
      assert palabras[..j] + [palabras[j]] == palabras[..j + 1];
      FirstIndices(st.usados, j);
      DirectScenarioFrom(stream, palabras, next, j + 1);
    } else {
      assert palabras[..5] == palabras;
    }
  }

  /** Block j of "0001000200030004000500010" is three zeros and the digit j + 1. */
  lemma DirectStreamBlock(j: nat)
    requires j < 5
    ensures CountingBlock("0001000200030004000500010", j)
  {
    if j == 0 {} else if j == 1 {} else if j == 2 {} else if j == 3 {} else {}
  }

  lemma DirectStreamDigits()
    ensures AllDigits("0001000200030004000500010")
  {
  }

  /** Adding the next index to the first j indices gives the first j + 1. */
  lemma FirstIndices(u: set<int>, j: nat)
    requires (forall x :: x in u <==> 0 <= x < j) && |u| == j
    ensures (forall x :: x in u + {j} <==> 0 <= x < j + 1) && |u + {j}| == j + 1
  {
  }

  /**
   * Directo mode over "0001000200030004000500010" with blocks of 4 and five
   * words reads 1 .. 5, selects all five words in order, and stops after the
   * fifth block with the sixth unread.
   */
  lemma DirectScenario()
    ensures var r := Run(Init(0), "0001000200030004000500010", 4, ["a", "b", "c", "d", "e"], Directo);
      r.resultado == ["a", "b", "c", "d", "e"] && r.i == 20
  {
    DirectStreamDigits();
    forall b: nat | b < 5 ensures CountingBlock("0001000200030004000500010", b) {
      DirectStreamBlock(b);
    }
    DirectScenarioFrom("0001000200030004000500010", ["a", "b", "c", "d", "e"], Init(0), 0);
  }

  /** Each record took one block: k times the number of selected words is at most the distance the cursor moved. */
  lemma {:induction false} RunCount(st: State, stream: string, start: nat, k: nat, palabras: seq<string>, mode: Mode)
    requires AllDigits(stream) && k >= 1
    requires |st.resultado| * k + start <= st.i
    ensures var r := Run(st, stream, k, palabras, mode); |r.resultado| * k + start <= r.i
    decreases |stream| - st.i
  {
    if Continues(st, stream, k, |palabras|) {
      StepShape(st, stream, k, palabras, mode);
      MulSucc(|st.resultado|, k);
      RunCount(Step(st, stream, k, palabras, mode), stream, start, k, palabras, mode);
    }
  }

  /**
   * A stream too short for the words: with fewer whole blocks after the
   * start than words, the loop ends with fewer words than the list has, and
   * no error.
   */
  lemma StreamExhausted(stream: string, start: nat, k: nat, palabras: seq<string>, mode: Mode)
    requires AllDigits(stream) && k >= 1
    requires |palabras| >= 1 && |stream| < start + |palabras| * k
    ensures var r := Run(Init(start), stream, k, palabras, mode);
      && (start <= |stream| ==> |r.resultado| * k <= |stream| - start)
      && |r.resultado| < |palabras|
  {
    var r := Run(Init(start), stream, k, palabras, mode);
    RunCount(Init(start), stream, start, k, palabras, mode);
    SelectionStops(stream, start, k, palabras, mode);
    if r.i == start {
      assert |r.resultado| * k <= 0;
    }
    if |r.resultado| >= |palabras| {
      MulMono(|palabras|, |r.resultado|, k);
    }
  }
}
